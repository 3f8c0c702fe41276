/** The schematics model machinery the entities rely on: conversion of raw
    input (construction and import), validation, and role-scoped
    serialization. Every function recurses into nested models through the
    field tables, and terminates because nested entities are lower. */
module Engine {
  import opened Base
  import opened Ocds
  import HashType
  import opened Indices

  /** The outcome of validating a model: its converted values with defaults
      filled in, or the grouped errors. */
  datatype Checked = Valid(data: map<string, Val>) | Invalid(errors: Errors)

  /** The outcome for one field: the value it ends up with (None: stays
      unset), or its error report. */
  datatype FieldOutcome = Keep(value: Option<Val>) | Fail(report: Report)

  function DefaultValue(df: Default, gen: Generated): Option<Val> {
    match df
    case NoDefault => None
    case Fixed(v) => Some(v)
    case FreshId => Some(Str(gen.freshId))
    case Now(k) => Some(Time(gen.clock(k)))
  }

  /** `to_native` of a primitive field type. Nested models and lists are
      converted by the callers. */
  function ToNative(ty: FieldType, x: Val): Result<Val, Message> {
    match ty
    case StringT(_) => if x.Str? then Success(x) else Failure(NotConvertible)
    case UrlT => if x.Str? then Success(x) else Failure(NotConvertible)
    case EmailT => if x.Str? then Success(x) else Failure(NotConvertible)
    case Md5T => if x.Str? then Success(x) else Failure(NotConvertible)
    case FloatT(_) =>
      if x.Num? then Success(x) else if x.Int? then Success(Num(x.i as real)) else Failure(NotConvertible)
    case IntT => if x.Int? then Success(x) else Failure(NotConvertible)
    case BoolT => if x.Bool? then Success(x) else Failure(NotConvertible)
    case TimeT => if x.Time? then Success(x) else Failure(NotConvertible)
    case HashT =>
      if !x.Str? then Failure(NotConvertible)
      else (match HashType.Parse(x.s)
            case Success(s) => Success(Str(s))
            case Failure(m) => Failure(m))
    case AnyT => Success(x)
    case ModelT(_) => Success(x)
    case ListT(_) => Success(x)
  }

  /** The validators of a converted primitive value: choices, length,
      pattern and minimum, each adding its message when it fails. */
  function ValueMessages(ty: FieldType, y: Val): seq<Message> {
    match ty
    case StringT(rules) =>
      if !y.Str? then []
      else
        (if rules.choices.Some? && y.s !in rules.choices.value
         then [NotInChoices(rules.choices.value)] else [])
        + (if rules.maxLength.Some? && |y.s| > rules.maxLength.value then [TooLong] else [])
        + (if rules.minLength.Some? && |y.s| < rules.minLength.value then [TooShort] else [])
        + (if rules.mediaType && !IsMediaType(y.s) then [PatternMismatch] else [])
    case FloatT(Some(min)) => if y.Num? && y.x < min then [BelowMin(min)] else []
    case _ => []
  }

  // ---------------------------------------------------------------- validation

  /** Validation: every field is checked (presence, conversion, validators,
      nested models) and all failures are reported together; the model-level
      validators run only when no field failed. */
  function Validate(e: Entity, c: Constants, gen: Generated, d: map<string, Val>): (r: Checked)
    ensures r.Valid? ==> r.data.Keys <= Table(e, c).Keys
    ensures r.Invalid? ==> r.errors != map[]
    decreases Height(e), 4, 0
  {
    var outcomes := FieldOutcomes(e, c, gen, d);
    var errors := FieldErrors(outcomes);
    if errors != map[] then Invalid(errors)
    else
      var data := KeptValues(outcomes);
      var cross := CrossFieldErrors(e, c, data);
      if cross != map[] then Invalid(cross) else Valid(data)
  }

  function FieldErrors(outcomes: map<string, FieldOutcome>): Errors {
    map n | n in outcomes && outcomes[n].Fail? :: outcomes[n].report
  }

  function KeptValues(outcomes: map<string, FieldOutcome>): map<string, Val> {
    map n | n in outcomes && outcomes[n].Keep? && outcomes[n].value.Some? :: outcomes[n].value.value
  }

  function FieldOutcomes(e: Entity, c: Constants, gen: Generated, d: map<string, Val>)
    : (r: map<string, FieldOutcome>)
    ensures r.Keys == Table(e, c).Keys
    decreases Height(e), 3, 0
  {
    var t := Table(e, c);
    map n | n in t :: CheckField(Height(e), c, gen, t[n], Get(d, n))
  }

  /** One field: an unset field takes its default; a field still unset fails
      when it is required. */
  function CheckField(h: nat, c: Constants, gen: Generated, spec: FieldSpec, v: Option<Val>)
    : FieldOutcome
    requires Below(spec.ty, h)
    decreases h, 2, 0
  {
    var w := if v.Some? then v else DefaultValue(spec.default, gen);
    if w.None? then
      if spec.required then Fail(Messages([Required])) else Keep(None)
    else CheckValue(h, c, gen, spec.ty, w.value)
  }

  function CheckValue(h: nat, c: Constants, gen: Generated, ty: FieldType, x: Val): FieldOutcome
    requires Below(ty, h)
    decreases h, 1, 0
  {
    match ty
    case ModelT(m) =>
      if !x.Obj? then Fail(Messages([NotConvertible]))
      else (match Validate(m, c, gen, x.fields)
            case Valid(data) => Keep(Some(Obj(data)))
            case Invalid(errors) => Fail(Nested(errors)))
    case ListT(m) =>
      if !x.List? then Fail(Messages([NotConvertible]))
      else
        var (items, failures) := CheckItems(h, c, gen, m, x.items);
        if failures == [] then Keep(Some(List(items))) else Fail(Items(failures))
    case _ =>
      match ToNative(ty, x)
      case Failure(msg) => Fail(Messages([msg]))
      case Success(y) =>
        var msgs := ValueMessages(ty, y);
        if msgs == [] then Keep(Some(y)) else Fail(Messages(msgs))
  }

  /** The elements of a list of models: the validated elements, and the
      reports of the failing ones in order. */
  function CheckItems(h: nat, c: Constants, gen: Generated, m: Entity, items: seq<Val>)
    : (r: (seq<Val>, seq<Report>))
    requires Height(m) < h
    decreases h, 0, |items|
  {
    if items == [] then ([], [])
    else
      var (rest, restFailures) := CheckItems(h, c, gen, m, items[1..]);
      if !items[0].Obj? then (rest, [Messages([NotConvertible])] + restFailures)
      else
        match Validate(m, c, gen, items[0].fields)
        case Valid(data) => ([Obj(data)] + rest, restFailures)
        case Invalid(errors) => (rest, [Nested(errors)] + restFailures)
  }

  // ---------------------------------------------------------------- conversion

  /** Conversion of raw input as `Document.import_data` calls it (`convert`,
      not strict): every field of the table gets a value. A field present in
      `raw` is converted by its type; an absent one takes its default, or
      stays unset when it has none. Input keys the table does not declare are
      ignored. Required fields are not checked here. All conversion failures
      are reported together. */
  function Convert(e: Entity, c: Constants, gen: Generated, raw: map<string, Val>)
    : (r: Result<map<string, Val>, Errors>)
    ensures r.Success? ==> raw.Keys * Table(e, c).Keys <= r.value.Keys <= Table(e, c).Keys
    ensures r.Failure? ==> r.error != map[] && r.error.Keys <= raw.Keys * Table(e, c).Keys
    decreases Height(e), 4, 0
  {
    var outcomes := ConvertOutcomes(e, c, gen, raw);
    OutcomeKeys(outcomes, raw);
    var errors := FieldErrors(outcomes);
    if errors != map[] then Failure(errors) else Success(KeptValues(outcomes))
  }

  /** Conversion with `strict=True`, as creating a model (`Model(raw)`) and
      converting a nested model field (`ModelType`, strict by default) do it:
      every input key the model does not accept is a "Rogue field" error,
      reported together with the errors of the fields. */
  function ConvertStrict(e: Entity, c: Constants, gen: Generated, raw: map<string, Val>)
    : (r: Result<map<string, Val>, Errors>)
    ensures r.Failure? ==> r.error != map[] && r.error.Keys <= raw.Keys
    decreases Height(e), 4, 1
  {
    WithRogue(Convert(e, c, gen, raw), RogueErrors(e, c, raw))
  }

  /** The outcome of a conversion with the "Rogue field" errors added. */
  function WithRogue(conv: Result<map<string, Val>, Errors>, rogue: Errors)
    : (r: Result<map<string, Val>, Errors>)
    ensures conv.Failure? && conv.error != map[] ==> r.Failure? && r.error != map[]
    ensures r.Failure? ==> r.error.Keys <= (if conv.Failure? then conv.error.Keys else {}) + rogue.Keys
  {
    match conv
    case Success(data) => if rogue == map[] then Success(data) else Failure(rogue)
    case Failure(errors) => Failure(errors + rogue)
  }

  /** The input keys a model accepts: its fields, and the names of its
      serializable properties (`Document.download_url`). */
  function AcceptedKeys(e: Entity, c: Constants): set<string> {
    Table(e, c).Keys + if e == Document then {"download_url"} else {}
  }

  /** A "Rogue field" error for every input key the model does not accept. */
  function RogueErrors(e: Entity, c: Constants, raw: map<string, Val>): Errors {
    RogueOf(raw, AcceptedKeys(e, c))
  }

  /** A "Rogue field" error for every key of `raw` outside `accepted`. */
  function RogueOf(raw: map<string, Val>, accepted: set<string>): (r: Errors)
    ensures r.Keys <= raw.Keys
  {
    map k | k in raw && k !in accepted :: Messages([RogueField])
  }

  /** The conversion outcome of every field of the table. */
  function ConvertOutcomes(e: Entity, c: Constants, gen: Generated, raw: map<string, Val>)
    : (r: map<string, FieldOutcome>)
    ensures r.Keys == Table(e, c).Keys
    ensures forall n :: n in r && n !in raw ==> r[n].Keep?
    ensures forall n :: n in r && n in raw ==> (r[n].Keep? ==> r[n].value.Some?)
    decreases Height(e), 3, 0
  {
    var t := Table(e, c);
    map n | n in t :: ConvertField(Height(e), c, gen, t[n], Get(raw, n))
  }

  /** Which fields conversion outcomes report and keep: absent fields never
      fail, and present fields that do not fail keep a value. */
  lemma OutcomeKeys(o: map<string, FieldOutcome>, raw: map<string, Val>)
    requires forall n :: n in o && n !in raw ==> o[n].Keep?
    requires forall n :: n in o && n in raw ==> (o[n].Keep? ==> o[n].value.Some?)
    ensures FieldErrors(o).Keys <= raw.Keys
    ensures FieldErrors(o) == map[] ==> raw.Keys * o.Keys <= KeptValues(o).Keys
  {
    if FieldErrors(o) == map[] {
      forall n | n in raw && n in o ensures n in KeptValues(o) {
        assert n !in FieldErrors(o);
      }
    }
  }

  function ConvertField(h: nat, c: Constants, gen: Generated, spec: FieldSpec, v: Option<Val>)
    : (r: FieldOutcome)
    requires Below(spec.ty, h)
    ensures v.None? ==> r == Keep(DefaultValue(spec.default, gen))
    ensures v.Some? ==> (r.Keep? ==> r.value.Some?)
    decreases h, 2, 0
  {
    if v.None? then Keep(DefaultValue(spec.default, gen))
    else ConvertValue(h, c, gen, spec.ty, v.value)
  }

  function ConvertValue(h: nat, c: Constants, gen: Generated, ty: FieldType, x: Val)
    : (r: FieldOutcome)
    requires Below(ty, h)
    ensures r.Keep? ==> r.value.Some?
    decreases h, 1, 1
  {
    match ty
    case ModelT(m) =>
      (match ConvertModel(c, gen, m, x)
       case Success(y) => Keep(Some(y))
       case Failure(report) => Fail(report))
    case ListT(m) => ConvertList(h, c, gen, m, ForceList(x))
    case _ =>
      match ToNative(ty, x)
      case Failure(msg) => Fail(Messages([msg]))
      case Success(y) => Keep(Some(y))
  }

  /** `ListType.to_native` of the list `ForceList` made, or the rejection of
      a mapping that is not keyed by list indices. */
  function ConvertList(h: nat, c: Constants, gen: Generated, m: Entity, items: Option<seq<Val>>)
    : (r: FieldOutcome)
    requires Height(m) < h
    ensures r.Keep? ==> r.value.Some?
    decreases h, 1, 0
  {
    match items
    case None => Fail(Messages([NotIndexed]))
    case Some(xs) =>
      match ConvertItems(h, c, gen, m, xs)
      case Success(ys) => Keep(Some(List(ys)))
      case Failure(report) => Fail(report)
  }

  /** `to_native` of a nested model: a mapping is converted as a model of
      its own; anything else is not convertible. */
  function ConvertModel(c: Constants, gen: Generated, m: Entity, x: Val): Result<Val, Report>
    decreases Height(m), 5, 0
  {
    if !x.Obj? then Failure(Messages([NotConvertible]))
    else
      match ConvertStrict(m, c, gen, x.fields)
      case Success(data) => Success(Obj(data))
      case Failure(errors) => Failure(Nested(errors))
  }

  // ------------------------------------------------------------ list coercion

  /** `ListType._force_list`: a list is taken as it is and the text "[]" as
      the empty list. A mapping whose keys are all list indices is read as
      the list of its values in the order of their indices; any other mapping
      is rejected (`None`). Any other value is a list of that one value. */
  function ForceList(x: Val): Option<seq<Val>> {
    if x.List? then Some(x.items)
    else if x == Str("[]") then Some([])
    else if x.Obj? then
      if forall k :: k in x.fields ==> IsIndexKey(k) then Some(IndexedItems(x.fields)) else None
    else Some([x])
  }

  /** `to_native` of a list of models: the elements converted in order, or
      the report of the first element that fails. The caller makes the raw
      value a list first (`ForceList`). */
  function ConvertItems(h: nat, c: Constants, gen: Generated, m: Entity, items: seq<Val>)
    : (r: Result<seq<Val>, Report>)
    requires Height(m) < h
    ensures r.Success? ==> |r.value| == |items|
    decreases h, 0, |items|
  {
    if items == [] then Success([])
    else
      match ConvertModel(c, gen, m, items[0])
      case Failure(report) => Failure(report)
      case Success(y) =>
        match ConvertItems(h, c, gen, m, items[1..])
        case Failure(report) => Failure(report)
        case Success(ys) => Success([y] + ys)
  }

  // ------------------------------------------------------------- serialization

  /** Per entity, per role name, the fields that role hides. */
  type Roles = map<Entity, map<string, set<string>>>

  /** The fields hidden when serializing `e` under `role`. A role the entity
      does not list, and no role at all (None), fall back to the entity's
      "default" role; an entity without one hides nothing. */
  function Hidden(roles: Roles, e: Entity, role: Option<string>): set<string> {
    if role.Some? && e in roles && role.value in roles[e] then roles[e][role.value]
    else if e in roles && "default" in roles[e] then roles[e]["default"]
    else {}
  }

  /** Whether the roles of `e` list `role`. */
  predicate ListsRole(roles: Roles, e: Entity, role: string) {
    e in roles && role in roles[e]
  }

  /** `serialize(role)` called on a model: a role the model does not list is
      an error naming that role; otherwise the model is serialized as below.
      Only this top-level call checks the role: nested models fall back to
      their "default" role. */
  function SerializeModel(e: Entity, c: Constants, d: map<string, Val>, role: Option<string>, roles: Roles)
    : (r: Result<Option<map<string, Val>>, string>)
    ensures r.Failure? <==> role.Some? && !ListsRole(roles, e, role.value)
    ensures r.Failure? ==> r.error == role.value
    ensures r.Success? ==> r.value == Serialize(e, c, d, role, roles)
  {
    if role.Some? && !ListsRole(roles, e, role.value) then Failure(role.value)
    else Success(Serialize(e, c, d, role, roles))
  }

  /** Serialization under a role, once the role is accepted, and the export
      of every nested model: visible fields that hold a value, nested models
      serialized under the same role; a model with nothing to show
      serializes to None. */
  function Serialize(e: Entity, c: Constants, d: map<string, Val>, role: Option<string>, roles: Roles)
    : (r: Option<map<string, Val>>)
    ensures r.Some? ==> r.value != map[]
    ensures r.Some? ==> r.value.Keys <= (d.Keys * Table(e, c).Keys) - Hidden(roles, e, role)
    decreases Height(e), 2, 0
  {
    var out := Present(Shown(e, c, d, role, roles));
    if out == map[] then None else Some(out)
  }

  /** The exported value of every set field of the table the role does not
      hide. */
  function Shown(e: Entity, c: Constants, d: map<string, Val>, role: Option<string>, roles: Roles)
    : (r: map<string, Option<Val>>)
    ensures r.Keys == (d.Keys * Table(e, c).Keys) - Hidden(roles, e, role)
    decreases Height(e), 1, 1
  {
    var t := Table(e, c);
    var hidden := Hidden(roles, e, role);
    map n | n in t && n !in hidden && n in d :: Export(Height(e), c, t[n].ty, d[n], role, roles)
  }

  /** The entries that hold a value. */
  function Present(shown: map<string, Option<Val>>): (r: map<string, Val>)
    ensures r.Keys <= shown.Keys
  {
    map n | n in shown && shown[n].Some? :: shown[n].value
  }

  /** `to_primitive` of one value; None when a nested model or list has
      nothing to show. */
  function Export(h: nat, c: Constants, ty: FieldType, x: Val, role: Option<string>, roles: Roles)
    : Option<Val>
    requires Below(ty, h)
    decreases h, 1, 0
  {
    match ty
    case ModelT(m) =>
      if !x.Obj? then Some(x)
      else (match Serialize(m, c, x.fields, role, roles)
            case Some(out) => Some(Obj(out))
            case None => None)
    case ListT(m) =>
      if !x.List? then Some(x)
      else
        var items := ExportItems(h, c, m, x.items, role, roles);
        if items == [] then None else Some(List(items))
    case _ => Some(x)
  }

  /** The serialized elements of a list of models, leaving out those with
      nothing to show. */
  function ExportItems(h: nat, c: Constants, m: Entity, items: seq<Val>, role: Option<string>,
                       roles: Roles): (r: seq<Val>)
    requires Height(m) < h
    ensures |r| <= |items|
    decreases h, 0, |items|
  {
    if items == [] then []
    else
      var rest := ExportItems(h, c, m, items[1..], role, roles);
      if !items[0].Obj? then [items[0]] + rest
      else
        match Serialize(m, c, items[0].fields, role, roles)
        case Some(out) => [Obj(out)] + rest
        case None => rest
  }
}
