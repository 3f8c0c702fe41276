/** A Document instance: its stored fields change in place when new data is
    imported, and only the fields whose converted value differs from the
    stored one are written. */
module Documents {
  import opened Base
  import opened Ocds
  import opened Engine
  import HashType
  import opened Rules
  import Conversion

  /** Every field of a Document, each holding its value in `vals` or None:
      the shape of the stored data and of a converted input. */
  function AllFields(c: Constants, vals: map<string, Val>): (r: map<string, Option<Val>>)
    ensures r.Keys == Table(Document, c).Keys
    ensures forall k :: k in r ==> r[k] == Get(vals, k)
  {
    map k | k in Table(Document, c) :: Get(vals, k)
  }

  /** The converted fields whose value differs from what is stored; a field
      that is not stored counts as differing. */
  function Changes(cur: map<string, Option<Val>>, conv: map<string, Option<Val>>)
    : (r: map<string, Option<Val>>)
    ensures r.Keys <= conv.Keys
    ensures forall k :: k in r ==> r[k] == conv[k] && (k !in cur || cur[k] != conv[k])
    ensures forall k :: k in conv && (k !in cur || cur[k] != conv[k]) ==> k in r
  {
    map k | k in conv && (k !in cur || cur[k] != conv[k]) :: conv[k]
  }

  /** What importing `raw` into stored fields `cur` leaves: the conversion
      errors, or the stored fields updated with the changed values. Every
      field is converted, so a field the input leaves out is written with its
      default, which is None for most fields and a fresh id or the current
      time for the others. */
  function Imported(c: Constants, gen: Generated, cur: map<string, Option<Val>>, raw: map<string, Val>)
    : (r: Result<map<string, Option<Val>>, Errors>)
    ensures r.Failure? <==> Convert(Document, c, gen, raw).Failure?
    ensures r.Failure? ==> r.error == Convert(Document, c, gen, raw).error
    ensures r.Success? ==> r.value.Keys == cur.Keys + Table(Document, c).Keys
  {
    match Convert(Document, c, gen, raw)
    case Failure(errors) => Failure(errors)
    case Success(conv) => Success(cur + Changes(cur, AllFields(c, conv)))
  }

  /** Leaving out the unchanged values makes no difference to the result:
      the merge is a plain update with every converted value. */
  lemma MergeIsUpdate(cur: map<string, Option<Val>>, conv: map<string, Option<Val>>)
    ensures cur + Changes(cur, conv) == cur + conv
  {
    var left := cur + Changes(cur, conv);
    var right := cur + conv;
    forall k | k in right ensures k in left && left[k] == right[k] {
    }
  }

  /** A successful import writes every field of the Document: a field the
      input names gets its converted value, a field it leaves out gets its
      default (None when it has none), and only other stored keys are kept. */
  lemma ImportSetsEveryField(c: Constants, gen: Generated, cur: map<string, Option<Val>>, raw: map<string, Val>)
    requires Imported(c, gen, cur, raw).Success?
    ensures var m := Imported(c, gen, cur, raw).value;
            var conv := Convert(Document, c, gen, raw).value;
            && m.Keys == cur.Keys + Table(Document, c).Keys
            && (forall k :: k in raw && k in Table(Document, c) ==> k in conv && m[k] == Some(conv[k]))
            && (forall k :: k !in raw && k in Table(Document, c) ==>
                  m[k] == DefaultValue(Table(Document, c)[k].default, gen))
            && (forall k :: k in cur && k !in Table(Document, c) ==> m[k] == cur[k])
  {
    var conv := Convert(Document, c, gen, raw).value;
    MergeIsUpdate(cur, AllFields(c, conv));
    forall k | k !in raw && k in Table(Document, c)
      ensures Get(conv, k) == DefaultValue(Table(Document, c)[k].default, gen)
    {
      Conversion.MissingFieldDefaulted(Document, c, gen, raw, k);
    }
  }

  /** Importing data that leaves out the title clears it, and importing data
      that leaves out the id or dateModified replaces them with the id and
      clock reading taken by this import. */
  lemma ImportClearsMissing(c: Constants, gen: Generated, cur: map<string, Option<Val>>, raw: map<string, Val>)
    requires Imported(c, gen, cur, raw).Success?
    ensures var m := Imported(c, gen, cur, raw).value;
            && ("title" !in raw ==> m["title"] == None)
            && ("id" !in raw ==> m["id"] == Some(Str(gen.freshId)))
            && ("dateModified" !in raw ==> m["dateModified"] == Some(Time(gen.clock(1))))
  {
    DocumentKeys(c);
    DocumentDefaultsGiven(c);
    DocumentTitleNoDefault(c);
    ImportSetsEveryField(c, gen, cur, raw);
  }

  /** Deleting the keys whose value is already stored leaves the changes. */
  lemma UnchangedDropped(cur: map<string, Option<Val>>, conv: map<string, Option<Val>>, same: set<string>)
    requires forall k :: k in same <==> k in conv && k in cur && cur[k] == conv[k]
    ensures conv - same == Changes(cur, conv)
  {
  }

  /** Merging the same converted values a second time finds nothing to
      change. */
  lemma MergeTwice(cur: map<string, Option<Val>>, conv: map<string, Option<Val>>)
    ensures Changes(cur + Changes(cur, conv), conv) == map[]
  {
    var m := cur + Changes(cur, conv);
    MergeIsUpdate(cur, conv);
    assert forall k :: k in conv ==> k in m && m[k] == conv[k];
  }

  /** Importing the same data a second time, with the same generated id and
      time, changes nothing: the second import finds no differing value. */
  lemma ReimportChangesNothing(c: Constants, gen: Generated, cur: map<string, Option<Val>>, raw: map<string, Val>)
    requires Imported(c, gen, cur, raw).Success?
    ensures var m := Imported(c, gen, cur, raw).value;
            var conv := AllFields(c, Convert(Document, c, gen, raw).value);
            Changes(m, conv) == map[] && Imported(c, gen, m, raw) == Success(m)
  {
    var conv := AllFields(c, Convert(Document, c, gen, raw).value);
    var m := cur + Changes(cur, conv);
    ImportedIs(c, gen, cur, raw, conv);
    ImportedIs(c, gen, m, raw, conv);
    MergeTwice(cur, conv);
    MapPlusEmpty(m);
  }

  /** Data that names the id and both timestamps imports the same way
      whatever id and time are generated, so importing it again later
      changes nothing. */
  lemma ReimportUnderNewGeneration(c: Constants, gen: Generated, gen': Generated,
                                   cur: map<string, Option<Val>>, raw: map<string, Val>)
    requires Imported(c, gen, cur, raw).Success?
    requires "id" in raw && "datePublished" in raw && "dateModified" in raw
    ensures var m := Imported(c, gen, cur, raw).value;
            Imported(c, gen', m, raw) == Success(m)
  {
    OnlyGeneratedDefaults(c, gen);
    OnlyGeneratedDefaults(c, gen');
    Conversion.SameDefaultsSameConversion(Document, c, gen, gen', raw);
    ReimportChangesNothing(c, gen, cur, raw);
  }

  /** Data that leaves out the id imports a newly generated id each time:
      importing it again under another generated id replaces the stored
      one. */
  lemma ReimportRegeneratesId(c: Constants, gen: Generated, gen': Generated,
                              cur: map<string, Option<Val>>, raw: map<string, Val>)
    requires Imported(c, gen, cur, raw).Success?
    requires "id" !in raw
    ensures var m := Imported(c, gen, cur, raw).value;
            && Imported(c, gen', m, raw).Success?
            && Imported(c, gen', m, raw).value["id"] == Some(Str(gen'.freshId))
  {
    Conversion.FailureIgnoresGenerated(Document, c, gen, gen', raw);
    ImportClearsMissing(c, gen', Imported(c, gen, cur, raw).value, raw);
  }

  lemma MapPlusEmpty(m: map<string, Option<Val>>)
    ensures m + map[] == m
  {
  }

  /** A conversion that succeeds merges all its fields into the stored
      ones. */
  lemma ImportedIs(c: Constants, gen: Generated, cur: map<string, Option<Val>>, raw: map<string, Val>,
                   conv: map<string, Option<Val>>)
    requires Convert(Document, c, gen, raw).Success?
    requires conv == AllFields(c, Convert(Document, c, gen, raw).value)
    ensures Imported(c, gen, cur, raw) == Success(cur + Changes(cur, conv))
  {
  }

  /** Only the id and the two timestamps have a default: every other field
      defaults to None. */
  lemma OnlyGeneratedDefaults(c: Constants, gen: Generated)
    ensures forall n :: n in Table(Document, c) && n != "id" && n != "datePublished" && n != "dateModified"
              ==> DefaultValue(Table(Document, c)[n].default, gen) == None
  {
    DocumentDefaultKeys(c, gen);
    var t := Table(Document, c);
    forall n | n in t && n != "id" && n != "datePublished" && n != "dateModified"
      ensures DefaultValue(t[n].default, gen) == None
    {
      assert n !in Defaults(Document, c, gen);
    }
  }

  /** The fields a new Document starts with: its generated id and the two
      timestamps, each set by its own reading of the clock. */
  function Initial(gen: Generated): map<string, Val> {
    map["id" := Str(gen.freshId), "datePublished" := Time(gen.clock(0)), "dateModified" := Time(gen.clock(1))]
  }

  /** The two timestamps of a new Document are separate clock readings, so
      they need not be equal. */
  lemma DatesNeedNotAgree()
    ensures var gen := Generated("", k => k as int);
            Initial(gen)["datePublished"] != Initial(gen)["dateModified"]
  {
    var gen := Generated("", k => k as int);
    assert gen.clock(0) == 0 && gen.clock(1) == 1;
  }

  /** The fields of a Document. */
  lemma DocumentKeys(c: Constants)
    ensures Table(Document, c).Keys
            == {"id", "hash", "documentOf", "documentType", "title", "title_en", "title_ru",
                "description", "description_en", "description_ru", "format", "url",
                "datePublished", "dateModified", "language", "relatedItem", "author"}
  {
  }

  /** The Document fields with a default: a fresh id and two timestamps. */
  lemma DocumentDefaultsGiven(c: Constants)
    ensures var t := Table(Document, c);
            t["id"].default == FreshId && t["datePublished"].default == Now(0) && t["dateModified"].default == Now(1)
  {
  }

  /** The other Document fields have no default (stated in groups to keep
      each unfolding of the table small). */
  lemma DocumentCodesNoDefault(c: Constants)
    ensures var t := Table(Document, c);
            && t["hash"].default == NoDefault && t["documentOf"].default == NoDefault
            && t["documentType"].default == NoDefault
  {
  }

  lemma DocumentTitleNoDefault(c: Constants)
    ensures var t := Table(Document, c);
            t["title"].default == NoDefault && t["title_en"].default == NoDefault
            && t["title_ru"].default == NoDefault
  {
  }

  lemma DocumentDescriptionNoDefault(c: Constants)
    ensures var t := Table(Document, c);
            && t["description"].default == NoDefault
            && t["description_en"].default == NoDefault && t["description_ru"].default == NoDefault
  {
  }

  lemma DocumentLinksNoDefault(c: Constants)
    ensures var t := Table(Document, c);
            && t["format"].default == NoDefault && t["url"].default == NoDefault
            && t["language"].default == NoDefault && t["relatedItem"].default == NoDefault
            && t["author"].default == NoDefault
  {
  }

  /** A new Document gets a generated id and both timestamps from the
      clock, and nothing else. */
  lemma DocumentDefaults(c: Constants, gen: Generated)
    ensures Defaults(Document, c, gen) == Initial(gen)
  {
    DocumentDefaultValues(c, gen);
    DocumentDefaultKeys(c, gen);
  }

  /** The id starts as the generated id, datePublished as the first clock
      reading and dateModified as the second. */
  lemma DocumentDefaultValues(c: Constants, gen: Generated)
    ensures var d := Defaults(Document, c, gen);
            && "id" in d && d["id"] == Str(gen.freshId)
            && "datePublished" in d && d["datePublished"] == Time(gen.clock(0))
            && "dateModified" in d && d["dateModified"] == Time(gen.clock(1))
  {
    DocumentKeys(c);
    DocumentDefaultsGiven(c);
  }

  /** Only id, datePublished and dateModified have a default. */
  lemma DocumentDefaultKeys(c: Constants, gen: Generated)
    ensures Defaults(Document, c, gen).Keys == {"id", "datePublished", "dateModified"}
  {
    var defaults := Defaults(Document, c, gen);
    DocumentDefaultValues(c, gen);
    DefaultsWithinDocument(c, gen);
    CodesAndTitlesStartUnset(c, gen);
    DescriptionsAndLinksStartUnset(c, gen);
    DefaultedKeys(defaults);
  }

  /** A map within the Document fields that holds the three defaulted
      fields and none of the others holds exactly those three. */
  lemma DefaultedKeys(d: map<string, Val>)
    requires d.Keys <= {"id", "hash", "documentOf", "documentType", "title", "title_en", "title_ru",
                "description", "description_en", "description_ru", "format", "url",
                "datePublished", "dateModified", "language", "relatedItem", "author"}
    requires "id" in d && "datePublished" in d && "dateModified" in d
    requires "hash" !in d && "documentOf" !in d && "documentType" !in d
             && "title" !in d && "title_en" !in d && "title_ru" !in d
             && "description" !in d && "description_en" !in d && "description_ru" !in d
             && "format" !in d && "url" !in d && "language" !in d
             && "relatedItem" !in d && "author" !in d
    ensures d.Keys == {"id", "datePublished", "dateModified"}
  {
    forall n | n in d ensures n in {"id", "datePublished", "dateModified"} {
      DefaultedKey(d, n);
    }
  }

  /** Defaults are only given to fields of the table. */
  lemma DefaultsWithinDocument(c: Constants, gen: Generated)
    ensures Defaults(Document, c, gen).Keys <= {"id", "hash", "documentOf", "documentType", "title", "title_en", "title_ru",
                "description", "description_en", "description_ru", "format", "url",
                "datePublished", "dateModified", "language", "relatedItem", "author"}
  {
    DocumentKeys(c);
  }

  /** The fields without a default start unset (stated in two groups to
      keep each proof small). */
  lemma CodesAndTitlesStartUnset(c: Constants, gen: Generated)
    ensures var d := Defaults(Document, c, gen);
            "hash" !in d && "documentOf" !in d && "documentType" !in d
            && "title" !in d && "title_en" !in d && "title_ru" !in d
  {
    DocumentCodesNoDefault(c);
    DocumentTitleNoDefault(c);
    NoDefaultNotFilled(Document, c, gen, "hash");
    NoDefaultNotFilled(Document, c, gen, "documentOf");
    NoDefaultNotFilled(Document, c, gen, "documentType");
    NoDefaultNotFilled(Document, c, gen, "title");
    NoDefaultNotFilled(Document, c, gen, "title_en");
    NoDefaultNotFilled(Document, c, gen, "title_ru");
  }

  lemma DescriptionsAndLinksStartUnset(c: Constants, gen: Generated)
    ensures var d := Defaults(Document, c, gen);
            "description" !in d && "description_en" !in d && "description_ru" !in d
            && "format" !in d && "url" !in d && "language" !in d && "relatedItem" !in d
            && "author" !in d
  {
    DocumentDescriptionNoDefault(c);
    DocumentLinksNoDefault(c);
    NoDefaultNotFilled(Document, c, gen, "description");
    NoDefaultNotFilled(Document, c, gen, "description_en");
    NoDefaultNotFilled(Document, c, gen, "description_ru");
    NoDefaultNotFilled(Document, c, gen, "format");
    NoDefaultNotFilled(Document, c, gen, "url");
    NoDefaultNotFilled(Document, c, gen, "language");
    NoDefaultNotFilled(Document, c, gen, "relatedItem");
    NoDefaultNotFilled(Document, c, gen, "author");
  }

  /** Within the Document fields, a key that is none of the fields without
      a default is one of the three defaulted fields. */
  lemma DefaultedKey(d: map<string, Val>, n: string)
    requires d.Keys <= {"id", "hash", "documentOf", "documentType", "title", "title_en", "title_ru",
                "description", "description_en", "description_ru", "format", "url",
                "datePublished", "dateModified", "language", "relatedItem", "author"}
    requires "hash" !in d && "documentOf" !in d && "documentType" !in d
             && "title" !in d && "title_en" !in d && "title_ru" !in d
             && "description" !in d && "description_en" !in d && "description_ru" !in d
             && "format" !in d && "url" !in d && "language" !in d
             && "relatedItem" !in d && "author" !in d
    requires n in d
    ensures n in {"id", "datePublished", "dateModified"}
  {
  }

  /** A Document whose format is not a media type fails on format with the
      pattern message; one whose format is a media type never does. */
  lemma FormatChecked(c: Constants, gen: Generated, d: map<string, Val>)
    requires "format" in d && d["format"].Str?
    ensures var r := Validate(Document, c, gen, d);
            !IsMediaType(d["format"].s) <==>
              r.Invalid? && "format" in r.errors && r.errors["format"] == Messages([PatternMismatch])
  {
    var o := FieldOutcomes(Document, c, gen, d);
    FormatOutcome(c, gen, d);
    assert "format" in FieldErrors(o) <==> !IsMediaType(d["format"].s);
  }

  /** What validation makes of a given format. */
  lemma FormatOutcome(c: Constants, gen: Generated, d: map<string, Val>)
    requires "format" in d
    ensures FieldOutcomes(Document, c, gen, d)["format"]
            == CheckValue(0, c, gen, StringT(StringRules(None, None, None, true)), d["format"])
  {
    var t := Table(Document, c);
    assert t["format"] == Mandatory(StringT(StringRules(None, None, None, true)));
    var o := FieldOutcomes(Document, c, gen, d);
    assert o["format"] == CheckField(Height(Document), c, gen, t["format"], Get(d, "format"));
  }

  /** A hash that does not parse fails on hash with the parser's message. */
  lemma HashChecked(c: Constants, gen: Generated, d: map<string, Val>, s: string)
    requires "hash" in d && d["hash"] == Str(s)
    ensures var r := Validate(Document, c, gen, d);
            HashType.Parse(s).Failure? ==>
              r.Invalid? && "hash" in r.errors && r.errors["hash"] == Messages([HashType.Parse(s).error])
    ensures var r := Validate(Document, c, gen, d);
            HashType.Parse(s).Success? ==> !(r.Invalid? && "hash" in r.errors)
  {
    var o := FieldOutcomes(Document, c, gen, d);
    HashOutcome(c, gen, d);
    if HashType.Parse(s).Failure? {
      assert ToNative(HashT, Str(s)) == Failure(HashType.Parse(s).error);
      assert o["hash"] == Fail(Messages([HashType.Parse(s).error]));
      assert "hash" in FieldErrors(o);
    }
  }

  /** What validation makes of a given hash. */
  lemma HashOutcome(c: Constants, gen: Generated, d: map<string, Val>)
    requires "hash" in d
    ensures FieldOutcomes(Document, c, gen, d)["hash"] == CheckValue(0, c, gen, HashT, d["hash"])
  {
    var t := Table(Document, c);
    assert t["hash"] == Optional(HashT);
    var o := FieldOutcomes(Document, c, gen, d);
    assert o["hash"] == CheckField(Height(Document), c, gen, t["hash"], Get(d, "hash"));
  }

  /** What validation makes of the id field of a Document. */
  lemma DocumentIdOutcome(c: Constants, gen: Generated, d: map<string, Val>)
    ensures var x := if "id" in d then d["id"] else Str(gen.freshId);
            FieldOutcomes(Document, c, gen, d)["id"] == CheckValue(0, c, gen, Md5T, x)
  {
    var t := Table(Document, c);
    assert t["id"] == FieldSpec(Md5T, true, FreshId);
    var o := FieldOutcomes(Document, c, gen, d);
    assert o["id"] == CheckField(Height(Document), c, gen, t["id"], Get(d, "id"));
  }

  /** A valid Document always has an id: the one it was given, or else the
      generated one. */
  lemma DocumentIdDefault(c: Constants, gen: Generated, d: map<string, Val>)
    requires Validate(Document, c, gen, d).Valid?
    ensures var data := Validate(Document, c, gen, d).data;
            "id" in data && data["id"] == (if "id" in d then d["id"] else Str(gen.freshId))
  {
    DocumentIdOutcome(c, gen, d);
    assert "id" in Table(Document, c);
    KeptInValid(Document, c, gen, d, "id");
    MdKeeps(c, gen, if "id" in d then d["id"] else Str(gen.freshId));
  }

  lemma MdKeeps(c: Constants, gen: Generated, x: Val)
    ensures CheckValue(0, c, gen, Md5T, x).Keep? ==> CheckValue(0, c, gen, Md5T, x) == Keep(Some(x))
  {
  }

  class Document {
    /** The code tables in force. */
    const c: Constants
    /** Every field of the Document, by name, holding its value or None. */
    var data: map<string, Option<Val>>

    ghost predicate Valid()
      reads this
    {
      data.Keys == Table(Document, c).Keys
    }

    /** A new Document holds the defaults of its fields: a generated id, each
        timestamp from its own clock reading, and None elsewhere. */
    constructor (c: Constants, gen: Generated)
      ensures this.c == c
      ensures data == AllFields(c, Initial(gen))
      ensures Convert(Document, c, gen, map[]) == Success(Initial(gen))
      ensures ConvertStrict(Document, c, gen, map[]) == Success(Initial(gen))
      ensures Valid()
    {
      this.c := c;
      data := AllFields(c, Initial(gen));
      DocumentDefaults(c, gen);
      CreatedWithDefaults(Document, c, gen);
    }

    /** Converts `raw`, with `gen` as the id and time generated for this
        call, and writes the converted fields that differ from the stored
        ones; on a conversion error nothing is written. */
    method ImportData(raw: map<string, Val>, gen: Generated) returns (errors: Option<Errors>)
      requires Valid()
      modifies this
      ensures Valid()
      ensures match Imported(c, gen, old(data), raw)
              case Failure(e) => errors == Some(e) && data == old(data)
              case Success(m) => errors == None && data == m
    {
      var converted := Convert(Document, c, gen, raw);
      if converted.Failure? {
        errors := Some(converted.error);
        return;
      }
      var pending := DropUnchanged(AllFields(c, converted.value));
      data := data + pending;
      errors := None;
    }

    /** The converted values left once those equal to the stored ones are
        deleted. */
    method DropUnchanged(conv: map<string, Option<Val>>) returns (pending: map<string, Option<Val>>)
      ensures pending == Changes(data, conv)
    {
      var delKeys: set<string> := {};
      var rest := conv.Keys;
      while rest != {}
        invariant rest <= conv.Keys
        invariant forall k :: k in delKeys <==> k in conv && k !in rest && k in data && data[k] == conv[k]
        decreases rest
      {
        var k :| k in rest;
        if k in data && data[k] == conv[k] {
          delKeys := delKeys + {k};
        }
        rest := rest - {k};
      }
      pending := conv;
      var todo := delKeys;
      while todo != {}
        invariant todo <= delKeys
        invariant pending == conv - (delKeys - todo)
        decreases todo
      {
        var k :| k in todo;
        pending := pending - {k};
        todo := todo - {k};
      }
      UnchangedDropped(data, conv, delKeys);
    }
  }
}
