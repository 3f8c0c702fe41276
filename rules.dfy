/** What validation promises for each entity: required fields, defaults,
    bounds, and the three cross-field validators. */
module Rules {
  import opened Base
  import opened Ocds
  import opened Engine

  /** The converted values of the fields of `t` that `d` sets. */
  function Restrict(d: map<string, Val>, t: set<string>): map<string, Val> {
    map n | n in d && n in t :: d[n]
  }

  predicate HasText(d: map<string, Val>, n: string) { n in d && d[n].Str? }

  predicate TextOrAbsent(d: map<string, Val>, n: string) { n in d ==> d[n].Str? }

  predicate TimeOrAbsent(d: map<string, Val>, n: string) { n in d ==> d[n].Time? }

  /** The errors of field outcomes are exactly `expected`. */
  lemma FieldErrorsAre(o: map<string, FieldOutcome>, expected: Errors)
    requires forall n :: n in o ==> (o[n].Fail? <==> n in expected)
    requires forall n :: n in expected ==> n in o && o[n].Fail? && o[n].report == expected[n]
    ensures FieldErrors(o) == expected
  {
  }

  /** The kept values of field outcomes are exactly `expected`. */
  lemma KeptValuesAre(o: map<string, FieldOutcome>, expected: map<string, Val>)
    requires forall n :: n in o ==> (o[n].Keep? && o[n].value.Some? <==> n in expected)
    requires forall n :: n in expected ==> n in o && o[n].Keep? && o[n].value == Some(expected[n])
    ensures KeptValues(o) == expected
  {
  }

  /** When every field keeps what the input sets, nothing fails and the
      validated data is the input restricted to the table. */
  lemma AllKept(o: map<string, FieldOutcome>, d: map<string, Val>)
    requires forall n :: n in o ==> o[n] == Keep(Get(d, n))
    ensures FieldErrors(o) == map[]
    ensures KeptValues(o) == Restrict(d, o.Keys)
  {
    FieldErrorsAre(o, map[]);
    KeptValuesAre(o, Restrict(d, o.Keys));
  }

  /** In a valid model each field kept its outcome's value. */
  lemma KeptInValid(e: Entity, c: Constants, gen: Generated, d: map<string, Val>, n: string)
    requires Validate(e, c, gen, d).Valid? && n in Table(e, c)
    ensures FieldOutcomes(e, c, gen, d)[n].Keep?
    ensures var o := FieldOutcomes(e, c, gen, d)[n];
            o.value.Some? ==> n in Validate(e, c, gen, d).data && Validate(e, c, gen, d).data[n] == o.value.value
  {
    var o := FieldOutcomes(e, c, gen, d);
    assert FieldErrors(o) == map[];
    assert n !in FieldErrors(o);
  }

  /** The values the fields of `e` start with: each field's default. */
  function Defaults(e: Entity, c: Constants, gen: Generated): map<string, Val> {
    var t := Table(e, c);
    map n | n in t && DefaultValue(t[n].default, gen).Some? :: DefaultValue(t[n].default, gen).value
  }

  /** A field without a default starts unset. */
  lemma NoDefaultNotFilled(e: Entity, c: Constants, gen: Generated, n: string)
    requires n in Table(e, c) && Table(e, c)[n].default == NoDefault
    ensures n !in Defaults(e, c, gen)
  {
  }

  /** Creating a model from no data cannot fail and fills exactly the
      fields that have a default. */
  lemma CreatedWithDefaults(e: Entity, c: Constants, gen: Generated)
    ensures Convert(e, c, gen, map[]) == Success(Defaults(e, c, gen))
    ensures ConvertStrict(e, c, gen, map[]) == Success(Defaults(e, c, gen))
  {
    var t := Table(e, c);
    var o := ConvertOutcomes(e, c, gen, map[]);
    var defaults := Defaults(e, c, gen);
    forall n | n in o ensures o[n] == Keep(DefaultValue(t[n].default, gen)) {
      assert o[n] == ConvertField(Height(e), c, gen, t[n], Get(map[], n));
    }
    FieldErrorsAre(o, map[]);
    KeptValuesAre(o, defaults);
    assert Convert(e, c, gen, map[]) == Success(KeptValues(o));
    assert RogueErrors(e, c, map[]) == map[];
  }

  /** Every required field without a default that is unset is reported with
      "This field is required.", all of them in the same error. */
  lemma MissingRequiredReportedTogether(e: Entity, c: Constants, gen: Generated, d: map<string, Val>)
    ensures forall n :: n in Table(e, c) && Table(e, c)[n].required
                        && Table(e, c)[n].default == NoDefault && n !in d
                        ==> Validate(e, c, gen, d).Invalid?
                            && n in Validate(e, c, gen, d).errors
                            && Validate(e, c, gen, d).errors[n] == Messages([Required])
  {
    var t := Table(e, c);
    forall n | n in t && t[n].required && t[n].default == NoDefault && n !in d
      ensures n in FieldErrors(FieldOutcomes(e, c, gen, d))
              && FieldErrors(FieldOutcomes(e, c, gen, d))[n] == Messages([Required])
    {
      RequiredMissing(e, c, gen, d, n);
    }
    if FieldErrors(FieldOutcomes(e, c, gen, d)) != map[] {
      FieldErrorsReported(e, c, gen, d);
    }
  }

  /** When some field fails, validation reports exactly the field failures. */
  lemma FieldErrorsReported(e: Entity, c: Constants, gen: Generated, d: map<string, Val>)
    requires FieldErrors(FieldOutcomes(e, c, gen, d)) != map[]
    ensures Validate(e, c, gen, d) == Invalid(FieldErrors(FieldOutcomes(e, c, gen, d)))
  {
  }

  /** A converted value that passes its checks is kept as a value. */
  lemma CheckedValueKept(h: nat, c: Constants, gen: Generated, ty: FieldType, x: Val)
    requires Below(ty, h)
    ensures CheckValue(h, c, gen, ty, x).Keep? ==> CheckValue(h, c, gen, ty, x).value.Some?
  {
  }

  /** A valid model holds every field the input sets or that has a default,
      and no other; in particular it holds every required field. */
  lemma ValidHasRequired(e: Entity, c: Constants, gen: Generated, d: map<string, Val>)
    requires Validate(e, c, gen, d).Valid?
    ensures var data := Validate(e, c, gen, d).data;
            forall n :: n in Table(e, c) ==>
              (n in data <==> n in d || DefaultValue(Table(e, c)[n].default, gen).Some?)
    ensures forall n :: n in Table(e, c) && Table(e, c)[n].required ==> n in Validate(e, c, gen, d).data
  {
    var t := Table(e, c);
    var o := FieldOutcomes(e, c, gen, d);
    var data := Validate(e, c, gen, d).data;
    assert data == KeptValues(o);
    forall n | n in t
      ensures n in data <==> n in d || DefaultValue(t[n].default, gen).Some?
      ensures t[n].required ==> n in data
    {
      KeptInValid(e, c, gen, d, n);
      assert o[n] == CheckField(Height(e), c, gen, t[n], Get(d, n));
      var w := if n in d then Some(d[n]) else DefaultValue(t[n].default, gen);
      if w.Some? {
        CheckedValueKept(Height(e), c, gen, t[n].ty, w.value);
      }
    }
  }

  /** A nested model that fails validation makes its parent fail, with the
      nested errors reported under the parent's field. */
  lemma NestedFailureReported(e: Entity, c: Constants, gen: Generated, d: map<string, Val>, n: string,
                              m: Entity, f: map<string, Val>)
    requires n in Table(e, c) && Table(e, c)[n].ty == ModelT(m)
    requires n in d && d[n] == Obj(f)
    requires Validate(m, c, gen, f).Invalid?
    ensures var r := Validate(e, c, gen, d);
            r.Invalid? && n in r.errors && r.errors[n] == Nested(Validate(m, c, gen, f).errors)
  {
    var o := FieldOutcomes(e, c, gen, d);
    assert o[n] == CheckField(Height(e), c, gen, Table(e, c)[n], Get(d, n));
    assert n in FieldErrors(o);
    FieldErrorsReported(e, c, gen, d);
  }

  /** An empty ContactPoint reports only its missing name: the contact
      check waits until every field passes. */
  lemma EmptyContactPoint(c: Constants, gen: Generated)
    ensures Validate(ContactPoint, c, gen, map[]) == Invalid(map["name" := Messages([Required])])
  {
    ContactPointTable(c);
    var o := FieldOutcomes(ContactPoint, c, gen, map[]);
    var t := Table(ContactPoint, c);
    forall n | n in o ensures o[n] == (if n == "name" then Fail(Messages([Required])) else Keep(None)) {
      assert o[n] == CheckField(Height(ContactPoint), c, gen, t[n], None);
    }
    FieldErrorsAre(o, map["name" := Messages([Required])]);
  }

  /** One required field without a default that is unset fails with
      "This field is required.". */
  lemma RequiredMissing(e: Entity, c: Constants, gen: Generated, d: map<string, Val>, n: string)
    requires n in Table(e, c) && Table(e, c)[n].required && Table(e, c)[n].default == NoDefault && n !in d
    ensures n in FieldErrors(FieldOutcomes(e, c, gen, d))
    ensures FieldErrors(FieldOutcomes(e, c, gen, d))[n] == Messages([Required])
  {
    var o := FieldOutcomes(e, c, gen, d);
    assert o[n] == CheckField(Height(e), c, gen, Table(e, c)[n], None);
  }

  /** An empty Location reports latitude and longitude at once. */
  lemma EmptyLocation(c: Constants, gen: Generated)
    ensures Validate(Location, c, gen, map[])
            == Invalid(map["latitude" := Messages([Required]), "longitude" := Messages([Required])])
  {
    assert Table(Location, c).Keys == {"latitude", "longitude", "elevation"};
    var o := FieldOutcomes(Location, c, gen, map[]);
    assert o["latitude"] == Fail(Messages([Required]));
    assert o["longitude"] == Fail(Messages([Required]));
    assert o["elevation"] == Keep(None);
    FieldErrorsAre(o, map["latitude" := Messages([Required]), "longitude" := Messages([Required])]);
  }

  /** The fields of an Organization and which of them are required. */
  lemma OrganizationTable(c: Constants)
    ensures var t := Table(Organization, c);
            && t.Keys == {"name", "name_en", "name_ru", "identifier", "additionalIdentifiers",
                          "address", "contactPoint"}
            && (forall n :: n in t ==> t[n].default == NoDefault)
            && (forall n :: n in t ==> (t[n].required <==> n in {"name", "identifier", "address", "contactPoint"}))
  {
  }

  /** An empty Organization reports all four required fields at once. */
  lemma EmptyOrganization(c: Constants, gen: Generated)
    ensures Validate(Organization, c, gen, map[])
            == Invalid(map["name" := Messages([Required]), "identifier" := Messages([Required]),
                           "address" := Messages([Required]), "contactPoint" := Messages([Required])])
  {
    OrganizationTable(c);
    var o := FieldOutcomes(Organization, c, gen, map[]);
    var expected := map["name" := Messages([Required]), "identifier" := Messages([Required]),
                        "address" := Messages([Required]), "contactPoint" := Messages([Required])];
    forall n | n in o
      ensures (o[n].Fail? <==> n in expected) && (n in expected ==> o[n].report == expected[n])
    {
      assert o[n] == CheckField(Height(Organization), c, gen, Table(Organization, c)[n], None);
    }
    FieldErrorsAre(o, expected);
  }

  /** What validation makes of the id field of an Item. */
  lemma ItemIdOutcome(c: Constants, gen: Generated, d: map<string, Val>)
    ensures var x := if "id" in d then d["id"] else Str(gen.freshId);
            FieldOutcomes(Item, c, gen, d)["id"]
            == CheckValue(Height(Item), c, gen, StringT(StringRules(None, Some(1), None, false)), x)
  {
    var t := Table(Item, c);
    assert t["id"] == FieldSpec(StringT(StringRules(None, Some(1), None, false)), true, FreshId);
    var o := FieldOutcomes(Item, c, gen, d);
    assert o["id"] == CheckField(Height(Item), c, gen, t["id"], Get(d, "id"));
  }

  /** A valid Item always has an id: the one it was given, or else the
      generated one. */
  lemma ItemIdDefault(c: Constants, gen: Generated, d: map<string, Val>)
    ensures var r := Validate(Item, c, gen, d);
            r.Valid? ==> "id" in r.data && r.data["id"] == (if "id" in d then d["id"] else Str(gen.freshId))
  {
    ItemIdOutcome(c, gen, d);
    var x := if "id" in d then d["id"] else Str(gen.freshId);
    var o := FieldOutcomes(Item, c, gen, d);
    var ty := StringT(StringRules(None, Some(1), None, false));
    if FieldErrors(o) == map[] {
      assert "id" !in FieldErrors(o);
      assert o["id"] == Keep(Some(x)) by {
        match ToNative(ty, x)
        case Failure(_) =>
        case Success(y) => assert y == x;
      }
    }
  }

  /** An empty Item id is too short. */
  lemma ItemIdNotEmpty(c: Constants, gen: Generated, d: map<string, Val>)
    requires "id" in d && d["id"] == Str("")
    ensures var r := Validate(Item, c, gen, d);
            r.Invalid? && "id" in r.errors && r.errors["id"] == Messages([TooShort])
  {
    ItemIdOutcome(c, gen, d);
    var ty := StringT(StringRules(None, Some(1), None, false));
    assert ValueMessages(ty, Str("")) == [TooShort];
    assert "id" in FieldErrors(FieldOutcomes(Item, c, gen, d));
  }

  // ------------------------------------------------------------------ Period

  predicate EndsEarlier(d: map<string, Val>)
    requires TimeOrAbsent(d, "startDate") && TimeOrAbsent(d, "endDate")
  {
    "startDate" in d && "endDate" in d && d["endDate"].t < d["startDate"].t
  }

  /** A Period (and a PeriodEndRequired with its end set) fails on startDate
      with "period should begin before its end" exactly when both dates are
      set and the end is earlier; equal dates and a missing date pass. */
  lemma PeriodOrdering(e: Entity, c: Constants, gen: Generated, d: map<string, Val>)
    requires e == Period || e == PeriodEndRequired
    requires TimeOrAbsent(d, "startDate") && TimeOrAbsent(d, "endDate")
    requires e == PeriodEndRequired ==> "endDate" in d
    ensures Validate(e, c, gen, d)
            == if EndsEarlier(d) then Invalid(map["startDate" := Messages([PeriodOrder])])
               else Valid(Restrict(d, {"startDate", "endDate"}))
  {
    PeriodKept(e, c, gen, d);
    var data := Restrict(d, {"startDate", "endDate"});
    assert EndsBeforeStart(data) == EndsEarlier(d);
  }

  /** Both fields of a well-typed Period keep what the input sets. */
  lemma PeriodKept(e: Entity, c: Constants, gen: Generated, d: map<string, Val>)
    requires e == Period || e == PeriodEndRequired
    requires TimeOrAbsent(d, "startDate") && TimeOrAbsent(d, "endDate")
    requires e == PeriodEndRequired ==> "endDate" in d
    ensures FieldErrors(FieldOutcomes(e, c, gen, d)) == map[]
    ensures KeptValues(FieldOutcomes(e, c, gen, d)) == Restrict(d, {"startDate", "endDate"})
  {
    assert Table(e, c).Keys == {"startDate", "endDate"};
    var o := FieldOutcomes(e, c, gen, d);
    assert o["startDate"] == Keep(Get(d, "startDate"));
    assert o["endDate"] == Keep(Get(d, "endDate"));
    AllKept(o, d);
  }

  /** A PeriodEndRequired without an end reports only the missing endDate. */
  lemma PeriodEndMissing(c: Constants, gen: Generated, d: map<string, Val>)
    requires TimeOrAbsent(d, "startDate") && "endDate" !in d
    ensures Validate(PeriodEndRequired, c, gen, d) == Invalid(map["endDate" := Messages([Required])])
  {
    assert Table(PeriodEndRequired, c).Keys == {"startDate", "endDate"};
    var o := FieldOutcomes(PeriodEndRequired, c, gen, d);
    assert o["startDate"] == Keep(Get(d, "startDate"));
    assert o["endDate"] == Fail(Messages([Required]));
    FieldErrorsAre(o, map["endDate" := Messages([Required])]);
  }

  // ------------------------------------------------------------------- Value

  /** An amount given as a float or an integer. */
  predicate IsAmount(v: Val) { v.Num? || v.Int? }

  /** The number an amount stands for once converted to a float. */
  function AmountOf(v: Val): real
    requires IsAmount(v)
  {
    if v.Num? then v.x else v.i as real
  }

  predicate ValueFieldsTyped(d: map<string, Val>) {
    && ("amount" in d ==> IsAmount(d["amount"]))
    && ("currency" in d ==> d["currency"].Str? && |d["currency"].s| == 3)
    && ("valueAddedTaxIncluded" in d ==> d["valueAddedTaxIncluded"].Bool?)
  }

  /** The three fields of a Value with their rules and defaults. */
  lemma ValueTable(c: Constants)
    ensures var t := Table(Value, c);
            && t.Keys == {"amount", "currency", "valueAddedTaxIncluded"}
            && t["amount"] == Mandatory(FloatT(Some(0.0)))
            && t["currency"] == FieldSpec(StringT(StringRules(None, Some(3), Some(3), false)), true,
                                          Fixed(Str(DefaultCurrency)))
            && t["valueAddedTaxIncluded"] == FieldSpec(BoolT, true, Fixed(Bool(true)))
  {
  }

  /** What validation makes of the currency and tax flag of a Value. */
  lemma ValueDefaults(c: Constants, gen: Generated, d: map<string, Val>)
    requires ValueFieldsTyped(d)
    ensures FieldOutcomes(Value, c, gen, d)["currency"]
            == Keep(Some(if "currency" in d then d["currency"] else Str(DefaultCurrency)))
    ensures FieldOutcomes(Value, c, gen, d)["valueAddedTaxIncluded"]
            == Keep(Some(if "valueAddedTaxIncluded" in d then d["valueAddedTaxIncluded"] else Bool(true)))
  {
    ValueTable(c);
    var o := FieldOutcomes(Value, c, gen, d);
    var t := Table(Value, c);
    assert o["currency"] == CheckField(0, c, gen, t["currency"], Get(d, "currency"));
    assert |DefaultCurrency| == 3;
    assert o["valueAddedTaxIncluded"] == CheckField(0, c, gen, t["valueAddedTaxIncluded"], Get(d, "valueAddedTaxIncluded"));
  }

  /** Value: amount is required and must not be negative; currency defaults
      to UAH and valueAddedTaxIncluded to true. */
  lemma ValueRules(c: Constants, gen: Generated, d: map<string, Val>)
    requires ValueFieldsTyped(d)
    ensures "amount" !in d ==>
              Validate(Value, c, gen, d) == Invalid(map["amount" := Messages([Required])])
    ensures "amount" in d && AmountOf(d["amount"]) < 0.0 ==>
              Validate(Value, c, gen, d) == Invalid(map["amount" := Messages([BelowMin(0.0)])])
    ensures "amount" in d && AmountOf(d["amount"]) >= 0.0 ==>
              Validate(Value, c, gen, d)
              == Valid(map["amount" := Num(AmountOf(d["amount"])),
                           "currency" := if "currency" in d then d["currency"] else Str(DefaultCurrency),
                           "valueAddedTaxIncluded" :=
                             if "valueAddedTaxIncluded" in d then d["valueAddedTaxIncluded"] else Bool(true)])
  {
    ValueTable(c);
    ValueDefaults(c, gen, d);
    var o := FieldOutcomes(Value, c, gen, d);
    assert o["amount"] == CheckField(0, c, gen, Mandatory(FloatT(Some(0.0))), Get(d, "amount"));
    if "amount" !in d {
      FieldErrorsAre(o, map["amount" := Messages([Required])]);
    } else if AmountOf(d["amount"]) < 0.0 {
      FieldErrorsAre(o, map["amount" := Messages([BelowMin(0.0)])]);
    } else {
      FieldErrorsAre(o, map[]);
      KeptValuesAre(o, map["amount" := Num(AmountOf(d["amount"])),
                           "currency" := if "currency" in d then d["currency"] else Str(DefaultCurrency),
                           "valueAddedTaxIncluded" :=
                             if "valueAddedTaxIncluded" in d then d["valueAddedTaxIncluded"] else Bool(true)]);
    }
  }

  /** The Value of the Unit below: a negative integer amount. */
  function NegativeValue(): map<string, Val> {
    map["currency" := Str(DefaultCurrency), "amount" := Int(-1000), "valueAddedTaxIncluded" := Bool(false)]
  }

  lemma NegativeValueFails(c: Constants, gen: Generated)
    ensures Validate(Value, c, gen, NegativeValue()) == Invalid(map["amount" := Messages([BelowMin(0.0)])])
  {
    assert |DefaultCurrency| == 3;
    ValueRules(c, gen, NegativeValue());
  }

  /** The negative Value, checked as a nested model, fails with its amount error. */
  lemma NegativeValueNested(c: Constants, gen: Generated)
    ensures CheckValue(1, c, gen, ModelT(Value), Obj(NegativeValue()))
            == Fail(Nested(map["amount" := Messages([BelowMin(0.0)])]))
  {
    NegativeValueFails(c, gen);
  }

  /** A Unit with a name and a code checks only its value. */
  lemma UnitOutcomes(c: Constants, gen: Generated, d: map<string, Val>)
    requires HasText(d, "name") && HasText(d, "code") && "name_en" !in d && "name_ru" !in d
    requires "value" in d
    ensures var o := FieldOutcomes(Unit, c, gen, d);
            && (forall n :: n in o && n != "value" ==> o[n] == Keep(Get(d, n)))
            && o["value"] == CheckValue(1, c, gen, ModelT(Value), d["value"])
  {
    var t := Table(Unit, c);
    assert t.Keys == {"name", "name_en", "name_ru", "value", "code"};
    var o := FieldOutcomes(Unit, c, gen, d);
    forall n | n in o && n != "value" ensures o[n] == Keep(Get(d, n)) {
      assert o[n] == CheckField(Height(Unit), c, gen, t[n], Get(d, n));
    }
    assert o["value"] == CheckField(1, c, gen, t["value"], Get(d, "value"));
  }

  /** A Unit whose Value has a negative integer amount fails on its value,
      with the Value's own amount error nested under it. */
  lemma UnitNegativeAmount(c: Constants, gen: Generated)
    ensures var d := map["name" := Str("item"), "code" := Str("44617100-9"), "value" := Obj(NegativeValue())];
            Validate(Unit, c, gen, d)
            == Invalid(map["value" := Nested(map["amount" := Messages([BelowMin(0.0)])])])
  {
    var d := map["name" := Str("item"), "code" := Str("44617100-9"), "value" := Obj(NegativeValue())];
    NegativeValueNested(c, gen);
    UnitValueFails(c, gen, d, Nested(map["amount" := Messages([BelowMin(0.0)])]));
  }

  /** A Unit with a name and a code whose value fails reports only its value. */
  lemma UnitValueFails(c: Constants, gen: Generated, d: map<string, Val>, report: Report)
    requires HasText(d, "name") && HasText(d, "code") && "name_en" !in d && "name_ru" !in d
    requires "value" in d && CheckValue(1, c, gen, ModelT(Value), d["value"]) == Fail(report)
    ensures Validate(Unit, c, gen, d) == Invalid(map["value" := report])
  {
    UnitOutcomes(c, gen, d);
    FieldErrorsAre(FieldOutcomes(Unit, c, gen, d), map["value" := report]);
  }

  /** A currency that is not exactly three characters long is rejected. */
  lemma CurrencyLength(c: Constants, gen: Generated, d: map<string, Val>)
    requires "amount" in d && IsAmount(d["amount"]) && AmountOf(d["amount"]) >= 0.0
    requires "currency" in d && d["currency"].Str? && |d["currency"].s| != 3
    requires "valueAddedTaxIncluded" in d ==> d["valueAddedTaxIncluded"].Bool?
    ensures Validate(Value, c, gen, d)
            == Invalid(map["currency" := Messages(if |d["currency"].s| > 3 then [TooLong] else [TooShort])])
  {
    ValueTable(c);
    var o := FieldOutcomes(Value, c, gen, d);
    var t := Table(Value, c);
    assert o["amount"] == CheckField(0, c, gen, t["amount"], Get(d, "amount"));
    assert o["currency"] == CheckField(0, c, gen, t["currency"], Get(d, "currency"));
    assert o["valueAddedTaxIncluded"] == CheckField(0, c, gen, t["valueAddedTaxIncluded"], Get(d, "valueAddedTaxIncluded"));
    FieldErrorsAre(o, map["currency" := Messages(if |d["currency"].s| > 3 then [TooLong] else [TooShort])]);
  }

  // ------------------------------------------------------ ItemClassification

  /** Scheme known to the class, id and description given, optional texts
      well typed. */
  predicate ClassificationGiven(c: Constants, d: map<string, Val>) {
    && HasText(d, "scheme") && d["scheme"].s in c.itemClassificationSchemes
    && HasText(d, "id") && HasText(d, "description")
    && TextOrAbsent(d, "description_en") && TextOrAbsent(d, "description_ru") && TextOrAbsent(d, "uri")
  }

  /** The codes registered now for the scheme `d` names. */
  function RegisteredCodes(c: Constants, d: map<string, Val>): set<string>
    requires HasText(d, "scheme")
  {
    if d["scheme"].s in c.itemClassifications then c.itemClassifications[d["scheme"].s] else {}
  }

  /** The fields of an ItemClassification. */
  lemma ItemClassificationTable(c: Constants)
    ensures var t := Table(ItemClassification, c);
            && t.Keys == {"scheme", "id", "description", "description_en", "description_ru", "uri"}
            && t["scheme"] == FieldSpec(OneOf(c.itemClassificationSchemes), true,
                                        Fixed(Str(c.defaultItemClassification)))
            && t["id"] == Mandatory(Text) && t["description"] == Mandatory(Text)
            && t["description_en"] == Optional(Text) && t["description_ru"] == Optional(Text)
            && t["uri"] == Optional(UrlT)
  {
  }

  /** An ItemClassification is valid exactly when its id is among the codes
      registered for its scheme at the time of validation; an unknown scheme
      has no codes. */
  lemma ItemClassificationId(c: Constants, gen: Generated, d: map<string, Val>)
    requires ClassificationGiven(c, d)
    ensures Validate(ItemClassification, c, gen, d).Valid? <==> d["id"].s in RegisteredCodes(c, d)
    ensures d["id"].s !in RegisteredCodes(c, d) ==>
              Validate(ItemClassification, c, gen, d)
              == Invalid(map["id" := Messages([NotInChoices(RegisteredCodes(c, d))])])
  {
    ItemClassificationKept(c, gen, d);
    ItemClassificationTable(c);
    var data := Restrict(d, Table(ItemClassification, c).Keys);
    assert data["scheme"] == d["scheme"] && data["id"] == d["id"];
    assert CodesOf(c, data) == RegisteredCodes(c, d);
  }

  /** Every field of a given ItemClassification keeps what the input sets. */
  lemma ItemClassificationKept(c: Constants, gen: Generated, d: map<string, Val>)
    requires ClassificationGiven(c, d)
    ensures FieldErrors(FieldOutcomes(ItemClassification, c, gen, d)) == map[]
    ensures KeptValues(FieldOutcomes(ItemClassification, c, gen, d))
            == Restrict(d, Table(ItemClassification, c).Keys)
  {
    ItemClassificationTable(c);
    var t := Table(ItemClassification, c);
    var o := FieldOutcomes(ItemClassification, c, gen, d);
    forall n | n in o ensures o[n] == Keep(Get(d, n)) {
      assert o[n] == CheckField(Height(ItemClassification), c, gen, t[n], Get(d, n));
    }
    AllKept(o, d);
  }

  /** Registering the instance's code under its scheme makes the same
      instance valid: the code table is read at each validation. */
  lemma RegisteringCodeValidates(c: Constants, gen: Generated, d: map<string, Val>)
    requires ClassificationGiven(c, d)
    ensures var scheme := d["scheme"].s;
            var c' := c.(itemClassifications :=
                           c.itemClassifications[scheme := RegisteredCodes(c, d) + {d["id"].s}]);
            Validate(ItemClassification, c', gen, d).Valid?
  {
    var scheme := d["scheme"].s;
    var c' := c.(itemClassifications := c.itemClassifications[scheme := RegisteredCodes(c, d) + {d["id"].s}]);
    ItemClassificationId(c', gen, d);
  }

  // ------------------------------------------------------------ ContactPoint

  predicate ContactFieldsTyped(d: map<string, Val>) {
    && HasText(d, "name") && TextOrAbsent(d, "name_en") && TextOrAbsent(d, "name_ru")
    && TextOrAbsent(d, "email") && TextOrAbsent(d, "telephone")
    && TextOrAbsent(d, "faxNumber") && TextOrAbsent(d, "url")
  }

  /** The fields of a ContactPoint. */
  lemma ContactPointTable(c: Constants)
    ensures var t := Table(ContactPoint, c);
            && t.Keys == {"name", "name_en", "name_ru", "email", "telephone", "faxNumber", "url"}
            && t["name"] == Mandatory(Text) && t["name_en"] == Optional(Text)
            && t["name_ru"] == Optional(Text) && t["email"] == Optional(EmailT)
            && t["telephone"] == Optional(Text) && t["faxNumber"] == Optional(Text)
            && t["url"] == Optional(UrlT)
  {
  }

  /** A ContactPoint with a name is valid exactly when it has a non-empty
      email or telephone; otherwise it fails with
      {"email": ["telephone or email should be present"]}. */
  lemma ContactPointRule(c: Constants, gen: Generated, d: map<string, Val>)
    requires ContactFieldsTyped(d)
    ensures Validate(ContactPoint, c, gen, d).Valid? <==> !NoContactMeans(d)
    ensures NoContactMeans(d) ==>
              Validate(ContactPoint, c, gen, d) == Invalid(map["email" := Messages([ContactMissing])])
  {
    ContactPointKept(c, gen, d);
    var data := Restrict(d, Table(ContactPoint, c).Keys);
    assert Get(data, "email") == Get(d, "email") && Get(data, "telephone") == Get(d, "telephone");
  }

  /** Every field of a well-typed ContactPoint keeps what the input sets. */
  lemma ContactPointKept(c: Constants, gen: Generated, d: map<string, Val>)
    requires ContactFieldsTyped(d)
    ensures FieldErrors(FieldOutcomes(ContactPoint, c, gen, d)) == map[]
    ensures KeptValues(FieldOutcomes(ContactPoint, c, gen, d)) == Restrict(d, Table(ContactPoint, c).Keys)
  {
    ContactPointTable(c);
    var t := Table(ContactPoint, c);
    var o := FieldOutcomes(ContactPoint, c, gen, d);
    forall n | n in o ensures o[n] == Keep(Get(d, n)) {
      assert o[n] == CheckField(Height(ContactPoint), c, gen, t[n], Get(d, n));
    }
    AllKept(o, d);
  }

  /** Clearing one of email and telephone while the other remains keeps a
      ContactPoint valid; clearing the last one makes it invalid. */
  lemma ClearingContactMeans(c: Constants, gen: Generated, d: map<string, Val>)
    requires ContactFieldsTyped(d)
    ensures Truthy(Get(d, "email")) ==> Validate(ContactPoint, c, gen, d - {"telephone"}).Valid?
    ensures Truthy(Get(d, "telephone")) ==> Validate(ContactPoint, c, gen, d - {"email"}).Valid?
    ensures !Truthy(Get(d, "email")) ==> !Validate(ContactPoint, c, gen, d - {"telephone"}).Valid?
  {
    var noPhone := d - {"telephone"};
    var noEmail := d - {"email"};
    assert Get(noPhone, "email") == Get(d, "email") && Get(noPhone, "telephone") == None;
    assert Get(noEmail, "telephone") == Get(d, "telephone") && Get(noEmail, "email") == None;
    ContactPointRule(c, gen, noPhone);
    ContactPointRule(c, gen, noEmail);
  }
}
