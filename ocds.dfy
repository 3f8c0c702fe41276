/** The OCDS building blocks of the registry: Value, Period, Classification,
    Unit, Address, Location, Document, Identifier, Item, ContactPoint and
    Organization. Each entity is a fixed table of named fields; three of them
    add a cross-field validator. */
module Ocds {
  import opened Base

  /** A field value once converted to its native form. */
  datatype Val =
    | Str(s: string)
    | Num(x: real)                    // FloatType
    | Int(i: int)                     // IntType
    | Bool(b: bool)                   // BooleanType
    | Time(t: int)                    // IsoDateTimeType: only the order of instants matters
    | Obj(fields: map<string, Val>)   // ModelType: a nested model's field values
    | List(items: seq<Val>)           // ListType(ModelType(...))

  datatype Entity =
    | Value | Period | PeriodEndRequired | Classification | ItemClassification
    | Unit | Address | Location | Document | Identifier | Item | ContactPoint | Organization

  /** The options of a StringType field. */
  datatype StringRules = StringRules(
    choices: Option<set<string>>,
    minLength: Option<nat>,
    maxLength: Option<nat>,
    mediaType: bool)                  // the Document.format regex

  datatype FieldType =
    | StringT(rules: StringRules)
    | FloatT(minValue: Option<real>)
    | IntT | BoolT | AnyT | UrlT | EmailT | Md5T | TimeT | HashT
    | ModelT(model: Entity)
    | ListT(model: Entity)

  /** A default is a constant, or drawn from the id generator or the clock.
      Each clock default reads the clock itself: `Now(k)` is the k-th clock
      default of its class, in declaration order. */
  datatype Default = NoDefault | Fixed(v: Val) | FreshId | Now(reading: nat)

  datatype FieldSpec = FieldSpec(ty: FieldType, required: bool, default: Default)

  /** The lookup tables of the registry's constants. `itemClassificationSchemes`
      is the key list ItemClassification.scheme captured when the class was
      defined; `itemClassifications` is the live table validate_id reads. */
  datatype Constants = Constants(
    defaultItemClassification: string,
    itemClassificationSchemes: set<string>,
    itemClassifications: map<string, set<string>>,
    identifierCodes: set<string>,
    documentTypes: set<string>)

  /** The values the id generator and the clock hand out for one conversion:
      `clock(k)` is the time the k-th clock default reads. */
  datatype Generated = Generated(freshId: string, clock: nat -> int)

  const DefaultCurrency: string := "UAH"

  const NoRules := StringRules(None, None, None, false)

  function Optional(ty: FieldType): FieldSpec { FieldSpec(ty, false, NoDefault) }

  function Mandatory(ty: FieldType): FieldSpec { FieldSpec(ty, true, NoDefault) }

  const Text := StringT(NoRules)

  function OneOf(choices: set<string>): FieldType {
    StringT(StringRules(Some(choices), None, None, false))
  }

  /** How deep an entity's nested models go; nested models are strictly lower. */
  function Height(e: Entity): nat {
    match e
    case Unit => 1
    case Organization => 1
    case Item => 2
    case _ => 0
  }

  predicate Below(ty: FieldType, h: nat) {
    match ty
    case ModelT(m) => Height(m) < h
    case ListT(m) => Height(m) < h
    case _ => true
  }

  function PeriodTable(): map<string, FieldSpec> {
    map["startDate" := Optional(TimeT), "endDate" := Optional(TimeT)]
  }

  function ClassificationTable(): map<string, FieldSpec> {
    map["scheme" := Mandatory(Text), "id" := Mandatory(Text), "description" := Mandatory(Text),
        "description_en" := Optional(Text), "description_ru" := Optional(Text),
        "uri" := Optional(UrlT)]
  }

  /** The fields of a Document. */
  function DocumentFields(c: Constants): map<string, FieldSpec> {
    map["id" := FieldSpec(Md5T, true, FreshId),
        "hash" := Optional(HashT),
        "documentOf" := Optional(OneOf({"asset", "lot"})),
        "documentType" := Optional(OneOf(c.documentTypes)),
        "title" := Mandatory(Text), "title_en" := Optional(Text), "title_ru" := Optional(Text),
        "description" := Optional(Text), "description_en" := Optional(Text),
        "description_ru" := Optional(Text),
        "format" := Mandatory(StringT(StringRules(None, None, None, true))),
        "url" := Mandatory(Text),
        "datePublished" := FieldSpec(TimeT, false, Now(0)),
        "dateModified" := FieldSpec(TimeT, false, Now(1)),
        "language" := Optional(Text), "relatedItem" := Optional(Md5T), "author" := Optional(Text)]
  }

  /** The field table of each entity. */
  function Table(e: Entity, c: Constants): (t: map<string, FieldSpec>)
    ensures forall n :: n in t ==> Below(t[n].ty, Height(e))
  {
    match e
    case Value =>
      map["amount" := Mandatory(FloatT(Some(0.0))),
          "currency" := FieldSpec(StringT(StringRules(None, Some(3), Some(3), false)), true,
                                  Fixed(Str(DefaultCurrency))),
          "valueAddedTaxIncluded" := FieldSpec(BoolT, true, Fixed(Bool(true)))]
    case Period => PeriodTable()
    case PeriodEndRequired => PeriodTable()["endDate" := Mandatory(TimeT)]
    case Classification => ClassificationTable()
    case ItemClassification =>
      ClassificationTable()
        ["scheme" := FieldSpec(OneOf(c.itemClassificationSchemes), true,
                               Fixed(Str(c.defaultItemClassification)))]
        ["id" := Mandatory(Text)]
    case Unit =>
      map["name" := Optional(Text), "name_en" := Optional(Text), "name_ru" := Optional(Text),
          "value" := Optional(ModelT(Value)), "code" := Mandatory(Text)]
    case Address =>
      map["streetAddress" := Optional(Text), "locality" := Optional(Text),
          "region" := Optional(Text), "postalCode" := Optional(Text),
          "countryName" := Mandatory(Text),
          "countryName_en" := Optional(Text), "countryName_ru" := Optional(Text)]
    case Location =>
      map["latitude" := Mandatory(AnyT), "longitude" := Mandatory(AnyT), "elevation" := Optional(AnyT)]
    case Document => DocumentFields(c)
    case Identifier =>
      map["scheme" := Mandatory(OneOf(c.identifierCodes)), "id" := Mandatory(AnyT),
          "legalName" := Optional(Text), "legalName_en" := Optional(Text),
          "legalName_ru" := Optional(Text), "uri" := Optional(UrlT)]
    case Item =>
      map["id" := FieldSpec(StringT(StringRules(None, Some(1), None, false)), true, FreshId),
          "description" := Mandatory(Text),
          "description_en" := Optional(Text), "description_ru" := Optional(Text),
          "classification" := Optional(ModelT(ItemClassification)),
          "additionalClassifications" := FieldSpec(ListT(Classification), false, Fixed(List([]))),
          "unit" := Optional(ModelT(Unit)), "quantity" := Optional(IntT),
          "address" := Optional(ModelT(Address)), "location" := Optional(ModelT(Location)),
          "relatedLot" := Optional(Md5T)]
    case ContactPoint =>
      map["name" := Mandatory(Text), "name_en" := Optional(Text), "name_ru" := Optional(Text),
          "email" := Optional(EmailT), "telephone" := Optional(Text),
          "faxNumber" := Optional(Text), "url" := Optional(UrlT)]
    case Organization =>
      map["name" := Mandatory(Text), "name_en" := Optional(Text), "name_ru" := Optional(Text),
          "identifier" := Mandatory(ModelT(Identifier)),
          "additionalIdentifiers" := Optional(ListT(Identifier)),
          "address" := Mandatory(ModelT(Address)),
          "contactPoint" := Mandatory(ModelT(ContactPoint))]
  }

  function Get(d: map<string, Val>, n: string): Option<Val> {
    if n in d then Some(d[n]) else None
  }

  /** Python truthiness of a field value (None, "" and false are falsy). */
  predicate Truthy(v: Option<Val>) {
    match v
    case None => false
    case Some(Str(s)) => s != ""
    case Some(Num(x)) => x != 0.0
    case Some(Int(i)) => i != 0
    case Some(Bool(b)) => b
    case Some(List(items)) => items != []
    case Some(_) => true
  }

  /** Period.validate_startDate: both dates are set and the end is earlier. */
  predicate EndsBeforeStart(d: map<string, Val>) {
    Truthy(Get(d, "startDate")) && Truthy(Get(d, "endDate"))
    && d["startDate"].Time? && d["endDate"].Time? && d["endDate"].t < d["startDate"].t
  }

  /** ItemClassification.validate_id: the codes registered for the current
      scheme, empty for a scheme the table does not know. */
  function CodesOf(c: Constants, d: map<string, Val>): set<string> {
    match Get(d, "scheme")
    case Some(Str(scheme)) => if scheme in c.itemClassifications then c.itemClassifications[scheme] else {}
    case _ => {}
  }

  predicate IdRegistered(c: Constants, d: map<string, Val>) {
    "id" in d && d["id"].Str? && d["id"].s in CodesOf(c, d)
  }

  /** ContactPoint.validate_email: neither an email nor a telephone is given. */
  predicate NoContactMeans(d: map<string, Val>) {
    !Truthy(Get(d, "email")) && !Truthy(Get(d, "telephone"))
  }

  /** The errors of one field failing with one message. */
  function Single(name: string, m: Message): (r: Errors)
    ensures name in r && r != map[]
  {
    map[name := Messages([m])]
  }

  /** The model-level validators, run on the converted field values. */
  function CrossFieldErrors(e: Entity, c: Constants, d: map<string, Val>): (r: Errors)
    ensures r == map[] <==>
              match e
              case Period => !EndsBeforeStart(d)
              case PeriodEndRequired => !EndsBeforeStart(d)
              case ItemClassification => IdRegistered(c, d)
              case ContactPoint => !NoContactMeans(d)
              case _ => true
  {
    match e
    case Period | PeriodEndRequired =>
      if EndsBeforeStart(d) then Single("startDate", PeriodOrder) else map[]
    case ItemClassification =>
      if IdRegistered(c, d) then map[] else Single("id", NotInChoices(CodesOf(c, d)))
    case ContactPoint =>
      if NoContactMeans(d) then Single("email", ContactMissing) else map[]
    case _ => map[]
  }

  // The media-type pattern of Document.format, `^[-\w]+/[-\.\w\+]+$`, where
  // `\w` is an ASCII letter, digit or underscore.

  predicate IsWordChar(ch: char) {
    'a' <= ch <= 'z' || 'A' <= ch <= 'Z' || '0' <= ch <= '9' || ch == '_'
  }

  predicate IsTypeChar(ch: char) { ch == '-' || IsWordChar(ch) }

  predicate IsSubtypeChar(ch: char) { ch == '-' || ch == '.' || ch == '+' || IsWordChar(ch) }

  /** `s` is a media type split at position `i`: a non-empty run of type
      characters, a '/', and a non-empty run of subtype characters. */
  predicate SplitsAsMediaType(s: string, i: int) {
    0 < i < |s| - 1 && s[i] == '/'
    && (forall j :: 0 <= j < i ==> IsTypeChar(s[j]))
    && (forall j :: i < j < |s| ==> IsSubtypeChar(s[j]))
  }

  /** The pattern matched against the whole string. Type characters exclude
      '/', so the only split there can be is at the first '/'. */
  predicate IsMediaType(s: string)
    ensures IsMediaType(s) <==> exists i :: SplitsAsMediaType(s, i)
  {
    FirstSlashSplits(s);
    SplitsAsMediaType(s, IndexOf(s, '/'))
  }

  /** Any split of a media type is at its first '/'. */
  lemma FirstSlashSplits(s: string)
    ensures forall i :: SplitsAsMediaType(s, i) ==> i == IndexOf(s, '/')
  {
    var k := IndexOf(s, '/');
    forall i | SplitsAsMediaType(s, i) ensures i == k {
      assert !IsTypeChar('/');
    }
  }

  /** The pattern as Python's `re.match` applies it: `$` also matches just
      before a newline that ends the string. */
  predicate IsMediaTypeAsWritten(s: string)
    ensures IsMediaTypeAsWritten(s) <==> IsMediaType(s) || exists t :: IsMediaType(t) && s == t + "\n"
  {
    if |s| > 0 && s[|s| - 1] == '\n' then
      assert s == s[..|s| - 1] + "\n";
      IsMediaType(s) || IsMediaType(s[..|s| - 1])
    else
      IsMediaType(s)
  }

  /** A value the whole-string pattern accepts is made only of type and
      subtype characters around one '/': no newline or other control
      character can reach the stored format. */
  lemma MediaTypeCharacters(s: string)
    requires IsMediaType(s)
    ensures '\n' !in s
    ensures forall j :: 0 <= j < |s| ==> IsSubtypeChar(s[j]) || s[j] == '/'
  {
    var i := IndexOf(s, '/');
    assert SplitsAsMediaType(s, i);
    forall j | 0 <= j < |s| ensures IsSubtypeChar(s[j]) || s[j] == '/' {
      if j < i { assert IsTypeChar(s[j]); }
    }
  }

  /** "text/plain" matches the whole-string pattern. */
  lemma TextPlainIsMediaType()
    ensures IsMediaType("text/plain")
  {
    assert SplitsAsMediaType("text/plain", 4);
  }

  /** The pattern as written lets a trailing newline through. */
  lemma TrailingNewlineAccepted()
    ensures IsMediaTypeAsWritten("text/plain\n")
    ensures !IsMediaType("text/plain\n")
  {
    var s := "text/plain\n";
    assert s[..|s| - 1] == "text/plain";
    TextPlainIsMediaType();
    assert s[|s| - 1] == '\n';
    if IsMediaType(s) {
      MediaTypeCharacters(s);
    }
  }
}
