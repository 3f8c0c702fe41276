/** What conversion promises: converted values come from the raw input by
    each field's type, absent fields take their defaults, and every field
    that fails is reported in the same error. */
module Conversion {
  import opened Base
  import opened Ocds
  import opened Engine
  import opened Indices

  /** The conversion outcome of one field of `e` for `raw`. */
  function FieldConversion(e: Entity, c: Constants, gen: Generated, raw: map<string, Val>, n: string)
    : FieldOutcome
    requires n in Table(e, c)
  {
    ConvertField(Height(e), c, gen, Table(e, c)[n], Get(raw, n))
  }

  /** The outcomes conversion collects are those of the single fields. */
  lemma OutcomesOfFields(e: Entity, c: Constants, gen: Generated, raw: map<string, Val>)
    ensures forall n :: n in ConvertOutcomes(e, c, gen, raw) ==>
              ConvertOutcomes(e, c, gen, raw)[n] == FieldConversion(e, c, gen, raw, n)
  {
  }

  /** The errors of a set of outcomes are empty exactly when no outcome
      fails, and hold the report of each that does. */
  lemma ErrorsOfOutcomes(o: map<string, FieldOutcome>)
    ensures FieldErrors(o) != map[] <==> exists n :: n in o && o[n].Fail?
    ensures forall n :: n in o && o[n].Fail? ==> n in FieldErrors(o) && FieldErrors(o)[n] == o[n].report
  {
    if exists n :: n in o && o[n].Fail? {
      var n :| n in o && o[n].Fail?;
      assert n in FieldErrors(o);
    }
  }

  /** Outcomes that fail alike have the same errors. */
  lemma SameFailuresSameErrors(o: map<string, FieldOutcome>, o': map<string, FieldOutcome>)
    requires o.Keys == o'.Keys
    requires forall n :: n in o ==> (o[n].Fail? <==> o'[n].Fail?) && (o[n].Fail? ==> o[n] == o'[n])
    ensures FieldErrors(o) == FieldErrors(o')
  {
  }

  /** Conversion fails exactly when some field of the input fails, and then
      it reports every failing field, each with its own report. */
  lemma FailuresReportedTogether(e: Entity, c: Constants, gen: Generated, raw: map<string, Val>)
    ensures Convert(e, c, gen, raw).Failure?
            <==> exists n :: n in Table(e, c) && FieldConversion(e, c, gen, raw, n).Fail?
    ensures Convert(e, c, gen, raw).Failure? ==>
              forall n :: n in Table(e, c) && FieldConversion(e, c, gen, raw, n).Fail? ==>
                n in raw && n in Convert(e, c, gen, raw).error
                && Convert(e, c, gen, raw).error[n] == FieldConversion(e, c, gen, raw, n).report
  {
    OutcomesOfFields(e, c, gen, raw);
    ErrorsOfOutcomes(ConvertOutcomes(e, c, gen, raw));
  }

  /** A field the input leaves out takes its default, or stays unset. */
  lemma MissingFieldDefaulted(e: Entity, c: Constants, gen: Generated, raw: map<string, Val>, n: string)
    requires Convert(e, c, gen, raw).Success?
    requires n in Table(e, c) && n !in raw
    ensures Get(Convert(e, c, gen, raw).value, n) == DefaultValue(Table(e, c)[n].default, gen)
  {
    var t := Table(e, c);
    var o := ConvertOutcomes(e, c, gen, raw);
    assert o[n] == Keep(DefaultValue(t[n].default, gen));
  }

  /** A primitive field the input sets holds the value its type converts the
      raw value to. */
  lemma PrimitiveConverted(e: Entity, c: Constants, gen: Generated, raw: map<string, Val>, n: string)
    requires Convert(e, c, gen, raw).Success?
    requires n in Table(e, c) && n in raw
    requires !Table(e, c)[n].ty.ModelT? && !Table(e, c)[n].ty.ListT?
    ensures n in Convert(e, c, gen, raw).value
    ensures ToNative(Table(e, c)[n].ty, raw[n]) == Success(Convert(e, c, gen, raw).value[n])
  {
    var t := Table(e, c);
    var o := ConvertOutcomes(e, c, gen, raw);
    assert o[n] == ConvertValue(Height(e), c, gen, t[n].ty, raw[n]);
    assert n !in FieldErrors(o);
  }

  /** A nested model the input sets is converted as a model of its own, with
      its own defaults, and holds only keys that model accepts. */
  lemma NestedConverted(e: Entity, c: Constants, gen: Generated, raw: map<string, Val>, n: string,
                        m: Entity, f: map<string, Val>)
    requires Convert(e, c, gen, raw).Success?
    requires n in Table(e, c) && Table(e, c)[n].ty == ModelT(m)
    requires n in raw && raw[n] == Obj(f)
    ensures Convert(m, c, gen, f).Success? && f.Keys <= AcceptedKeys(m, c)
    ensures n in Convert(e, c, gen, raw).value
    ensures Convert(e, c, gen, raw).value[n] == Obj(Convert(m, c, gen, f).value)
  {
    var o := ConvertOutcomes(e, c, gen, raw);
    assert o[n] == ConvertValue(Height(e), c, gen, ModelT(m), Obj(f));
    assert n !in FieldErrors(o);
    StrictReportsRogueKeys(m, c, gen, f);
  }

  /** A list of models converts exactly when every element converts, and
      then into the converted elements in order. */
  lemma ListConvertsElementwise(h: nat, c: Constants, gen: Generated, m: Entity, items: seq<Val>)
    requires Height(m) < h
    ensures var r := ConvertItems(h, c, gen, m, items);
            r.Success? <==> forall i :: 0 <= i < |items| ==> ConvertModel(c, gen, m, items[i]).Success?
    ensures var r := ConvertItems(h, c, gen, m, items);
            r.Success? ==> forall i :: 0 <= i < |items| ==> r.value[i] == ConvertModel(c, gen, m, items[i]).value
  {
    ListSucceedsIffAll(h, c, gen, m, items);
    ListValuesInOrder(h, c, gen, m, items);
  }

  lemma {:induction false} ListSucceedsIffAll(h: nat, c: Constants, gen: Generated, m: Entity, items: seq<Val>)
    requires Height(m) < h
    ensures ConvertItems(h, c, gen, m, items).Success?
            <==> forall i :: 0 <= i < |items| ==> ConvertModel(c, gen, m, items[i]).Success?
    decreases |items|
  {
    if items != [] {
      ListSucceedsIffAll(h, c, gen, m, items[1..]);
      assert forall i :: 0 < i < |items| ==> items[i] == items[1..][i - 1];
    }
  }

  lemma {:induction false} ListValuesInOrder(h: nat, c: Constants, gen: Generated, m: Entity, items: seq<Val>)
    requires Height(m) < h
    ensures var r := ConvertItems(h, c, gen, m, items);
            r.Success? ==> forall i :: 0 <= i < |items| ==>
                             ConvertModel(c, gen, m, items[i]).Success?
                             && r.value[i] == ConvertModel(c, gen, m, items[i]).value
    decreases |items|
  {
    if items != [] && ConvertItems(h, c, gen, m, items).Success? {
      ListValuesInOrder(h, c, gen, m, items[1..]);
      var first := ConvertModel(c, gen, m, items[0]);
      var rest := ConvertItems(h, c, gen, m, items[1..]);
      assert ConvertItems(h, c, gen, m, items) == Success([first.value] + rest.value);
      assert forall i :: 0 < i < |items| ==> items[i] == items[1..][i - 1];
    }
  }

  /** A list of models that fails to convert reports the first element that
      fails, with that element's own report. */
  lemma {:induction false} ListStopsAtFirstFailure(h: nat, c: Constants, gen: Generated, m: Entity,
                                                   items: seq<Val>)
    requires Height(m) < h
    ensures var r := ConvertItems(h, c, gen, m, items);
            r.Failure? ==> exists i :: 0 <= i < |items| && FirstFailure(c, gen, m, items, i)
                                       && r.error == ConvertModel(c, gen, m, items[i]).error
    decreases |items|
  {
    if items != [] {
      ListStopsAtFirstFailure(h, c, gen, m, items[1..]);
      var r := ConvertItems(h, c, gen, m, items);
      var first := ConvertModel(c, gen, m, items[0]);
      if first.Failure? {
        assert FirstFailure(c, gen, m, items, 0);
      } else {
        var rest := ConvertItems(h, c, gen, m, items[1..]);
        if rest.Failure? {
          var i :| 0 <= i < |items[1..]| && FirstFailure(c, gen, m, items[1..], i)
                   && rest.error == ConvertModel(c, gen, m, items[1..][i]).error;
          assert FirstFailure(c, gen, m, items, i + 1);
        }
      }
    }
  }

  /** Element `i` is the first of `items` that fails to convert. */
  predicate FirstFailure(c: Constants, gen: Generated, m: Entity, items: seq<Val>, i: int)
    requires 0 <= i < |items|
  {
    ConvertModel(c, gen, m, items[i]).Failure?
    && forall j :: 0 <= j < i ==> ConvertModel(c, gen, m, items[j]).Success?
  }

  /** A value that is neither a list, nor a mapping, nor the text "[]",
      given to a list field, converts as a list of that one element. */
  lemma SingleValueWrapped(h: nat, c: Constants, gen: Generated, m: Entity, x: Val)
    requires Height(m) < h && !x.List? && !x.Obj? && x != Str("[]")
    ensures ConvertValue(h, c, gen, ListT(m), x) == ConvertValue(h, c, gen, ListT(m), List([x]))
  {
  }

  /** The text "[]" given to a list field converts to the empty list. */
  lemma EmptyListText(h: nat, c: Constants, gen: Generated, m: Entity)
    requires Height(m) < h
    ensures ConvertValue(h, c, gen, ListT(m), Str("[]")) == Keep(Some(List([])))
  {
    assert ConvertItems(h, c, gen, m, []) == Success([]);
  }

  /** A mapping that keys the elements of a list by the text of their
      indices, given to a list field, converts as that list. */
  lemma IndexedMappingAsList(h: nat, c: Constants, gen: Generated, m: Entity, xs: seq<Val>)
    requires Height(m) < h
    ensures ConvertValue(h, c, gen, ListT(m), Obj(IndexedMap(xs))) == ConvertValue(h, c, gen, ListT(m), List(xs))
  {
    IndexedRoundTrip(xs);
    assert ForceList(Obj(IndexedMap(xs))) == Some(xs);
    SameListSameConversion(h, c, gen, m, Obj(IndexedMap(xs)), List(xs));
  }

  /** A list field converts two raw values alike when they make the same list. */
  lemma SameListSameConversion(h: nat, c: Constants, gen: Generated, m: Entity, x: Val, y: Val)
    requires Height(m) < h && ForceList(x) == ForceList(y)
    ensures ConvertValue(h, c, gen, ListT(m), x) == ConvertValue(h, c, gen, ListT(m), y)
  {
  }

  /** An empty mapping given to a list field converts to the empty list. */
  lemma EmptyMappingIsEmptyList(h: nat, c: Constants, gen: Generated, m: Entity)
    requires Height(m) < h
    ensures ConvertValue(h, c, gen, ListT(m), Obj(map[])) == Keep(Some(List([])))
  {
    IndexedMappingAsList(h, c, gen, m, []);
    assert IndexedMap<Val>([]) == map[];
    assert ConvertItems(h, c, gen, m, []) == Success([]);
  }

  /** A mapping with a key that is not the text of a list index, given to a
      list field, is rejected. */
  lemma NonIndexKeyRejected(h: nat, c: Constants, gen: Generated, m: Entity, f: map<string, Val>, k: string)
    requires Height(m) < h && k in f && !IsIndexKey(k)
    ensures ConvertValue(h, c, gen, ListT(m), Obj(f)) == Fail(Messages([NotIndexed]))
  {
  }

  /** A single identifier given as a mapping to Organization's
      additionalIdentifiers is rejected: its keys are not list indices. */
  lemma IdentifierMappingRejected(c: Constants, gen: Generated)
    ensures ConvertValue(Height(Organization), c, gen, ListT(Identifier),
                         Obj(map["scheme" := Str("x"), "id" := Str("1")]))
            == Fail(Messages([NotIndexed]))
  {
    assert "id"[..1] == "i" && "i"[..0] == "";
    assert NatOfText("id") == 0;
    assert IntText(0) == "0";
    NonIndexKeyRejected(Height(Organization), c, gen, Identifier,
                        map["scheme" := Str("x"), "id" := Str("1")], "id");
  }

  /** Strict conversion is the conversion of the fields plus a "Rogue field"
      error for every input key the model does not accept: it succeeds
      exactly when the fields convert and there is no such key, with the same
      data; otherwise it reports every such key and every failing field. */
  lemma StrictReportsRogueKeys(e: Entity, c: Constants, gen: Generated, raw: map<string, Val>)
    ensures ConvertStrict(e, c, gen, raw).Success?
            <==> Convert(e, c, gen, raw).Success? && raw.Keys <= AcceptedKeys(e, c)
    ensures ConvertStrict(e, c, gen, raw).Success? ==>
              ConvertStrict(e, c, gen, raw).value == Convert(e, c, gen, raw).value
    ensures ConvertStrict(e, c, gen, raw).Failure? ==>
              forall k :: k in raw && k !in AcceptedKeys(e, c) ==>
                k in ConvertStrict(e, c, gen, raw).error
                && ConvertStrict(e, c, gen, raw).error[k] == Messages([RogueField])
    ensures Convert(e, c, gen, raw).Failure? ==>
              forall n :: n in Convert(e, c, gen, raw).error ==>
                n in ConvertStrict(e, c, gen, raw).error
                && ConvertStrict(e, c, gen, raw).error[n] == Convert(e, c, gen, raw).error[n]
  {
    RogueMerged(Convert(e, c, gen, raw), raw, AcceptedKeys(e, c));
  }

  /** Adding the "Rogue field" errors of the keys outside `accepted` to a
      conversion whose errors are all about accepted keys. */
  lemma RogueMerged(conv: Result<map<string, Val>, Errors>, raw: map<string, Val>, accepted: set<string>)
    requires conv.Failure? ==> conv.error.Keys <= accepted
    ensures var r := WithRogue(conv, RogueOf(raw, accepted));
            && (r.Success? <==> conv.Success? && raw.Keys <= accepted)
            && (r.Success? ==> r.value == conv.value)
            && (r.Failure? ==> forall k :: k in raw && k !in accepted ==>
                                 k in r.error && r.error[k] == Messages([RogueField]))
            && (conv.Failure? ==> forall n :: n in conv.error ==> n in r.error && r.error[n] == conv.error[n])
  {
    var rogue := RogueOf(raw, accepted);
    if !(raw.Keys <= accepted) {
      var k :| k in raw && k !in accepted;
      assert k in rogue;
    }
  }

  /** A nested Unit with a key Unit does not declare makes the Item's unit
      fail with a "Rogue field" error for that key. */
  lemma RogueNestedKeyRejected(c: Constants, gen: Generated)
    ensures ConvertValue(Height(Item), c, gen, ModelT(Unit),
                         Obj(map["name" := Str("kg"), "foo" := Int(1)]))
            == Fail(Nested(map["foo" := Messages([RogueField])]))
  {
    var raw := map["name" := Str("kg"), "foo" := Int(1)];
    KgUnitConverts(c, gen);
    KgUnitRogue(c);
    assert "foo" in RogueErrors(Unit, c, raw);
    OnlyRogueKeysFail(Height(Item), c, gen, Unit, raw);
  }

  lemma KgUnitConverts(c: Constants, gen: Generated)
    ensures Convert(Unit, c, gen, map["name" := Str("kg"), "foo" := Int(1)]).Success?
  {
    var raw := map["name" := Str("kg"), "foo" := Int(1)];
    assert raw.Keys * UnitKeys(c) == {"name"};
    NamedUnitConverts(c, gen, raw);
  }

  lemma KgUnitRogue(c: Constants)
    ensures RogueErrors(Unit, c, map["name" := Str("kg"), "foo" := Int(1)])
            == map["foo" := Messages([RogueField])]
  {
    var raw := map["name" := Str("kg"), "foo" := Int(1)];
    var keys := UnitKeys(c);
    var rogue := RogueErrors(Unit, c, raw);
    assert rogue == RogueOf(raw, keys);
    assert rogue.Keys == {"foo"} by {
      assert "foo" in rogue;
      forall k | k in rogue ensures k == "foo" {
        assert k in raw && k !in keys;
      }
    }
    assert rogue == map["foo" := Messages([RogueField])];
  }

  /** The keys Unit accepts are its five fields. */
  function UnitKeys(c: Constants): (keys: set<string>)
    ensures keys == AcceptedKeys(Unit, c) == Table(Unit, c).Keys
  {
    {"name", "name_en", "name_ru", "value", "code"}
  }

  /** A nested model whose fields convert but whose input holds keys the
      model does not accept fails with exactly their "Rogue field" errors. */
  lemma OnlyRogueKeysFail(h: nat, c: Constants, gen: Generated, m: Entity, f: map<string, Val>)
    requires Height(m) < h
    requires Convert(m, c, gen, f).Success? && RogueErrors(m, c, f) != map[]
    ensures ConvertValue(h, c, gen, ModelT(m), Obj(f)) == Fail(Nested(RogueErrors(m, c, f)))
  {
    StrictFailsOnRogue(c, gen, m, f);
    StrictFailureNested(c, gen, m, f);
    ModelFailureReported(h, c, gen, m, f);
  }

  lemma StrictFailsOnRogue(c: Constants, gen: Generated, m: Entity, f: map<string, Val>)
    requires Convert(m, c, gen, f).Success? && RogueErrors(m, c, f) != map[]
    ensures ConvertStrict(m, c, gen, f) == Failure(RogueErrors(m, c, f))
  {
  }

  lemma StrictFailureNested(c: Constants, gen: Generated, m: Entity, f: map<string, Val>)
    requires ConvertStrict(m, c, gen, f).Failure?
    ensures ConvertModel(c, gen, m, Obj(f)) == Failure(Nested(ConvertStrict(m, c, gen, f).error))
  {
  }

  lemma ModelFailureReported(h: nat, c: Constants, gen: Generated, m: Entity, f: map<string, Val>)
    requires Height(m) < h && ConvertModel(c, gen, m, Obj(f)).Failure?
    ensures ConvertValue(h, c, gen, ModelT(m), Obj(f)) == Fail(ConvertModel(c, gen, m, Obj(f)).error)
  {
  }

  /** For an entity without nested models, the generated id and time matter
      only through the defaults of the fields the input leaves out: whether
      conversion fails, and what it reports, does not depend on them. */
  lemma FailureIgnoresGenerated(e: Entity, c: Constants, gen: Generated, gen': Generated,
                                raw: map<string, Val>)
    requires Height(e) == 0
    ensures Convert(e, c, gen, raw).Failure? <==> Convert(e, c, gen', raw).Failure?
    ensures Convert(e, c, gen, raw).Failure? ==> Convert(e, c, gen, raw) == Convert(e, c, gen', raw)
  {
    var t := Table(e, c);
    var o := ConvertOutcomes(e, c, gen, raw);
    var o' := ConvertOutcomes(e, c, gen', raw);
    forall n | n in o ensures (o[n].Fail? <==> o'[n].Fail?) && (o[n].Fail? ==> o[n] == o'[n]) {
      if n in raw {
        assert o[n] == ConvertValue(0, c, gen, t[n].ty, raw[n]);
        assert o'[n] == ConvertValue(0, c, gen', t[n].ty, raw[n]);
      }
    }
    SameFailuresSameErrors(o, o');
  }

  /** For an entity without nested models, conversion under another
      generated id and time gives the same result when every field the input
      leaves out has the same default under both. */
  lemma SameDefaultsSameConversion(e: Entity, c: Constants, gen: Generated, gen': Generated,
                                   raw: map<string, Val>)
    requires Height(e) == 0
    requires forall n :: n in Table(e, c) && n !in raw ==>
               DefaultValue(Table(e, c)[n].default, gen) == DefaultValue(Table(e, c)[n].default, gen')
    ensures Convert(e, c, gen, raw) == Convert(e, c, gen', raw)
  {
    var t := Table(e, c);
    var o := ConvertOutcomes(e, c, gen, raw);
    var o' := ConvertOutcomes(e, c, gen', raw);
    forall n | n in t ensures o[n] == o'[n] {
      if n in raw {
        assert o[n] == ConvertValue(0, c, gen, t[n].ty, raw[n]);
        assert o'[n] == ConvertValue(0, c, gen', t[n].ty, raw[n]);
      }
    }
    assert o == o';
  }

  /** A Unit input that names the unit and sets no other field converts. */
  lemma NamedUnitConverts(c: Constants, gen: Generated, raw: map<string, Val>)
    requires raw.Keys * UnitKeys(c) == {"name"} && raw["name"].Str?
    ensures Convert(Unit, c, gen, raw).Success?
  {
    var t := Table(Unit, c);
    var o := ConvertOutcomes(Unit, c, gen, raw);
    forall n | n in o ensures o[n].Keep? {
      if n == "name" {
        assert o[n] == ConvertValue(Height(Unit), c, gen, t[n].ty, raw[n]);
      } else {
        assert n in t && n !in raw.Keys * t.Keys;
      }
    }
    assert FieldErrors(o) == map[];
  }
}
