# OCDS building blocks of openregistry.api, in Dafny

This project models the validated entity layer of the registry API. It covers the Open Contracting Data Standard building blocks in `openregistry/api/models/ocds.py`: Value, Period, PeriodEndRequired, Classification, ItemClassification, Unit, Address, Location, Document, Identifier, Item, ContactPoint and Organization. It also models two pieces of application start-up in `openregistry/api/app.py`: the keyring of document-service verification keys and the selection of plugins.

The modules are:

- `Indices` (indices.dfy): list indices written as text, the reading of an index-keyed mapping as a list in index order (`IndexedItems`), and its inverse `IndexedMap`.
- `Base` (base.dfy): `Option` and `Result`, the error messages the layer raises, and grouped error reports (field name to messages, nested errors or per-element list errors).
- `Ocds` (ocds.dfy): the entity data model.
  - An entity instance is a map from field name to a converted value (`Val`).
  - `Table(e, c)` is each class's field table: each field's type, required flag, default and choices or length bounds.
  - `CrossFieldErrors` holds the three model validators: `Period.validate_startDate`, `ItemClassification.validate_id` and `ContactPoint.validate_email`.
  - `IsMediaType` is the `Document.format` pattern matched against the whole value, and validation uses it. `IsMediaTypeAsWritten` is the pattern as Python's `re.match` applies it, which also accepts a trailing newline (see Findings).
  - The lookup tables of the registry's constants module are a `Constants` parameter. The id generator and the clock are a `Generated` parameter. The clock gives one reading per dated field, because schematics calls each field's `get_now` default separately.
- `HashType` (hash.dfy): the composite `scheme:hexdigest` type of `Document.hash`. It checks three things in order: supported scheme, digest length, hexadecimal digits.
- `Engine` (engine.dfy): the model machinery the classes inherit.
  - `Validate` checks every field: presence, default, conversion, validators and nested models. It reports all failures together. The model validators run only when no field failed.
  - `Convert` is the non-strict conversion that `Document.import_data` uses: keys the entity does not declare are ignored. Every declared field gets a value: the input's value converted by the field's type, else the field's default, else none.
  - `ConvertStrict` is the strict conversion used when an instance is created and for every nested model. It also reports each key that is neither a field nor a serializable name (Document's `download_url`) as a rogue field, together with the field errors.
  - A list field reads its value with `ForceList`. A list is taken as it is, and the text "[]" as the empty list. A mapping whose keys are all list indices ("0", "1", ...) is read in index order, and any other mapping is rejected. Any other single value becomes a one-element list. A list of models stops at its first element that fails and reports that element's own errors.
  - `SerializeModel` is `serialize(role)` called on a model: it fails when the model's entity does not list the role, and otherwise exports it with `Serialize`.
  - `Hidden` gives a role's blacklist. No role at all falls back to the entity's "default" role; so does a role a nested model does not list, because its parent has already accepted that role.
  - `Serialize` exports under an accepted role: blacklisted fields are hidden, nested models go under the same role, and a model with nothing to show becomes None.
- `Conversion` (conversion.dfy): what conversion promises: converted values, defaults, and all failures reported together.
- `Rules` (rules.dfy): what validation promises for each entity.
- `Views` (views.dfy): what serialization under a role promises.
- `Documents` (documents.dfy): the `Document` class. It stores every declared field, with None for an unset one. Its `ImportData` method is `Document.import_data`: it converts the input with the id and time generated for that call, drops the values equal to the stored ones, and updates the stored fields in place. Because conversion gives every field a value, an import also writes the fields the input leaves out: None, or a fresh id or a clock reading.
- `App` (app.py's start-up): `BuildKeyring` registers each `'\0'`-separated entry of the `dockeys` setting (or the signer's own key) under its first eight characters. `LoadPlugins` keeps the entry points the `plugins` setting selects.

## Model

| member | source | states |
|---|---|---|
| HashType.Parse | openregistry/api/tests/models.py:48-64 | succeeds exactly on a supported scheme with a digest of that algorithm's length in hex digits, and returns the value unchanged; each failure message holds exactly when the earlier checks pass and its own check fails |
| HashType.UnsupportedCases | openregistry/api/tests/models.py:53-55 | "test", ":" and "test:" fail as unsupported |
| HashType.MissingDigestIsWrongLength | openregistry/api/tests/models.py:57-58 | "sha512:" fails on length |
| HashType.NonHexDigestIsRejected | openregistry/api/tests/models.py:60-61 | an md5 value of 32 characters that are not all hex fails as not hexadecimal |
| HashType.FormatRoundTrip | openregistry/api/tests/models.py:63-64 | a hex digest of the right length under a supported algorithm parses back to the same text |
| HashType.ParsedIsFormat | openregistry/api/tests/models.py:63-64 | every accepted value is its scheme, ':' and its digest |
| Ocds.Table | openregistry/api/models/ocds.py:23-182 | every field type in an entity's table nests only entities of lower height, so validation, conversion and export of nested models terminate |
| Ocds.IsMediaType | openregistry/api/models/ocds.py:105 | a value matches the whole-string pattern exactly when it splits at some '/' into a non-empty run of type characters and a non-empty run of subtype characters |
| Ocds.IsMediaTypeAsWritten | openregistry/api/models/ocds.py:105 | the pattern as Python applies it accepts exactly the media types and the media types followed by one newline |
| Ocds.CrossFieldErrors | openregistry/api/models/ocds.py:33-35 | the model validators report nothing exactly when: the period does not end before it starts; the classification id is a code registered for its scheme (lines 55-58); the contact point has an email or a telephone (lines 166-168) |
| Ocds.MediaTypeCharacters | openregistry/api/models/ocds.py:105 | a format the whole-string pattern accepts has no newline and consists of type/subtype characters around '/' |
| Ocds.TrailingNewlineAccepted | openregistry/api/models/ocds.py:105 | the pattern as Python applies it accepts "text/plain\n", which the whole-string pattern rejects |
| Engine.Validate | openregistry/api/tests/models.py:194-199 | a failed validation carries a non-empty error map; validated data holds only declared fields |
| Engine.Convert | openregistry/api/models/ocds.py:124 | the non-strict conversion of an import: converted data holds only declared fields and every declared field of the input; conversion errors are non-empty and only about declared input fields |
| Engine.ConvertStrict | openregistry/api/models/ocds.py:179-182 | the strict conversion of creation and of nested models: its errors are non-empty and only about input keys |
| Conversion.StrictReportsRogueKeys | openregistry/api/models/ocds.py:179-182 | strict conversion succeeds exactly when the non-strict one does and the input has only fields and serializable names, with the same value; every other key is reported as a rogue field, and the field errors are kept beside them |
| Conversion.RogueNestedKeyRejected | openregistry/api/models/ocds.py:150 | an Item unit given as `{"name": "kg", "foo": 1}` fails with "foo" reported as a rogue field of the nested Unit |
| Conversion.FailuresReportedTogether | openregistry/api/models/ocds.py:124 | conversion fails exactly when some field fails, and then reports every failing field with its own report |
| Conversion.MissingFieldDefaulted | openregistry/api/models/ocds.py:124 | a declared field the input leaves out gets its default, or none |
| Conversion.PrimitiveConverted | openregistry/api/models/ocds.py:124 | a primitive field the input sets holds its raw value converted by the field's type |
| Conversion.NestedConverted | openregistry/api/models/ocds.py:150 | a nested model the input sets is converted strictly as a model of its own, defaults included, so it has no key outside its fields and serializable names |
| Conversion.FailureIgnoresGenerated | openregistry/api/models/ocds.py:124 | for an entity without nested models, whether conversion fails and what it reports does not depend on the generated id and time |
| Conversion.ListConvertsElementwise | openregistry/api/models/ocds.py:149 | a list of models converts exactly when every element converts, into the converted elements in order |
| Conversion.ListSucceedsIffAll | openregistry/api/models/ocds.py:149 | a list of models converts exactly when every element converts as a model |
| Conversion.ListValuesInOrder | openregistry/api/models/ocds.py:149 | a converted list holds, at each position, the converted element at that position |
| Conversion.ListStopsAtFirstFailure | openregistry/api/models/ocds.py:149 | a list that fails to convert reports the first element that fails, with that element's own report |
| Conversion.SingleValueWrapped | openregistry/api/models/ocds.py:149 | a value that is neither a list, nor a mapping, nor the text "[]", given to a list field, converts as the list of that one value |
| Conversion.EmptyListText | openregistry/api/models/ocds.py:180 | the text "[]" given to a list field converts to the empty list |
| Conversion.IndexedMappingAsList | openregistry/api/models/ocds.py:180 | a mapping from the indices "0" to "n-1" to values converts as the list of those values in index order |
| Conversion.EmptyMappingIsEmptyList | openregistry/api/models/ocds.py:180 | an empty mapping given to a list field converts to the empty list |
| Conversion.NonIndexKeyRejected | openregistry/api/models/ocds.py:180 | a mapping with a key that is not a list index, given to a list field, fails as not indexed |
| Conversion.IdentifierMappingRejected | openregistry/api/models/ocds.py:180 | a single identifier given as a mapping `{"scheme": "x", "id": "1"}` to `additionalIdentifiers` fails as not indexed instead of being wrapped |
| Indices.IndexedRoundTrip | openregistry/api/models/ocds.py:180 | every key of the mapping written from a list is a list index, and reading that mapping in index order gives back the list |
| Indices.Ascending | openregistry/api/models/ocds.py:180 | the keys of a mapping as integers, strictly increasing, each exactly once |
| Conversion.SameDefaultsSameConversion | openregistry/api/models/ocds.py:124 | for an entity without nested models, conversion under two generated ids and times agrees when the defaults of every field left out agree |
| Engine.Serialize | openregistry/api/tests/models.py:76 | a serialized model is never empty (an empty one is None) and shows only set, declared fields the role does not hide |
| Views.TopLevelRoleListed | openregistry/api/tests/models.py:286-288 | serializing a model under a role fails exactly when its entity does not list that role; a listed role hides exactly its own blacklist |
| Rules.CreatedWithDefaults | openregistry/api/tests/models.py:110-112 | creating a model from no data (strictly, as creation does) cannot fail and fills exactly the fields with defaults |
| Rules.MissingRequiredReportedTogether | openregistry/api/tests/models.py:194-199 | every unset required field without a default is reported as required, all in the same error |
| Rules.ValidHasRequired | openregistry/api/tests/models.py:194-199 | a valid model holds exactly the declared fields the input sets or that have a default, so every required field |
| Rules.NestedFailureReported | openregistry/api/tests/models.py:150-155 | a nested model that fails makes its parent fail, with the nested errors under the parent's field |
| Rules.EmptyLocation | openregistry/api/models/ocds.py:86-88 | an empty Location reports latitude and longitude together |
| Rules.OrganizationTable | openregistry/api/models/ocds.py:176-182 | Organization's fields; name, identifier, address and contactPoint are required; none has a default |
| Rules.EmptyOrganization | openregistry/api/models/ocds.py:176-182 | an empty Organization reports its four required fields together |
| Rules.ValueTable | openregistry/api/models/ocds.py:24-26 | Value's three fields with their types, bounds and defaults |
| Rules.ValueDefaults | openregistry/api/models/ocds.py:25-26 | validation keeps a given currency and tax flag, and otherwise fills "UAH" and true |
| Rules.ValueRules | openregistry/api/models/ocds.py:24-26 | for a float or integer amount: a missing amount is required; a negative amount fails its minimum; otherwise the value is valid with the amount as a float and the defaults filled |
| Rules.UnitNegativeAmount | openregistry/api/tests/models.py:150-155 | a Unit whose Value has amount -1000 fails with the Value's minimum error nested under "value" |
| Rules.CurrencyLength | openregistry/api/models/ocds.py:25 | a currency that is not three characters long fails as too long or too short |
| Rules.ItemIdDefault | openregistry/api/models/ocds.py:144 | a valid Item has an id: the one given, or else the generated one |
| Rules.ItemIdNotEmpty | openregistry/api/models/ocds.py:144 | an empty Item id fails as too short |
| Rules.PeriodOrdering | openregistry/api/models/ocds.py:33-35 | a Period (or a PeriodEndRequired with an end) fails on startDate with the ordering message exactly when both dates are set and the end is earlier; otherwise it is valid with its dates |
| Rules.PeriodEndMissing | openregistry/api/models/ocds.py:38-39 | a PeriodEndRequired without endDate reports only that endDate is required |
| Rules.ItemClassificationTable | openregistry/api/models/ocds.py:51-53 | ItemClassification's fields; scheme is limited to the known schemes and defaults to the default classification |
| Rules.ItemClassificationId | openregistry/api/models/ocds.py:55-58 | an ItemClassification is valid exactly when its id is registered for its scheme (an unknown scheme has no codes), and otherwise fails on id with the registered codes as choices |
| Rules.RegisteringCodeValidates | openregistry/api/tests/models.py:186-190 | registering the instance's code under its scheme makes the same instance valid, because the codes are read at each validation |
| Rules.ContactPointTable | openregistry/api/models/ocds.py:157-164 | ContactPoint's fields; only name is required |
| Rules.EmptyContactPoint | openregistry/api/tests/models.py:292-297 | an empty ContactPoint reports only that name is required |
| Rules.ContactPointRule | openregistry/api/models/ocds.py:166-168 | a named ContactPoint is valid exactly when it has a non-empty email or telephone, and otherwise fails with the email message only |
| Rules.ClearingContactMeans | openregistry/api/tests/models.py:311-326 | removing the telephone keeps it valid when an email remains and vice versa; removing the telephone with no email makes it invalid |
| Views.ShownField | openregistry/api/tests/models.py:202 | a set, declared, visible field appears exactly when its exported value is not empty, and with that value |
| Views.NothingSetSerializesToNone | openregistry/api/tests/models.py:293 | a model that sets none of its fields serializes to None under any role |
| Views.DefaultRoleShowsPrimitives | openregistry/api/tests/models.py:287 | with no role, every set primitive field the entity's "default" role does not hide is shown unchanged |
| Views.UnlistedRoleHidesDefault | openregistry/api/models/ocds.py:93 | inside an accepted export, a role the nested entity does not list hides what no role hides: the entity's "default" blacklist, or nothing |
| Views.NestedUnlistedRoleAsDefault | openregistry/api/tests/models.py:353-357 | a nested model without nested models of its own is exported under a role it does not list exactly as under no role |
| Views.BlacklistedFieldHidden | openregistry/api/tests/models.py:288 | a field the role blacklists never appears |
| Views.NestedUnderSameRole | openregistry/api/tests/models.py:353-357 | a visible nested model shows exactly what the nested model serializes to under the same role, and is dropped when that is None |
| Views.IdentifierIdHiddenUnderView | openregistry/api/tests/models.py:353-357 | with Identifier's `id` blacklisted under "view" and the identifier not hidden, an Organization serialized under "view" shows no id in its identifier |
| Views.IdentifierIdShownByDefault | openregistry/api/tests/models.py:353-356 | with no role, the Organization's identifier shows its id unless a "default" blacklist hides it |
| Documents.Changes | openregistry/api/models/ocds.py:126-128 | exactly the converted fields whose value differs from the stored one (or is not stored), with their converted values |
| Documents.MergeIsUpdate | openregistry/api/models/ocds.py:126-129 | dropping the unchanged values leaves the same result as updating with every converted value |
| Documents.Imported | openregistry/api/models/ocds.py:117-130 | an import fails exactly when conversion fails, with its errors; otherwise every declared field is stored |
| Documents.ImportSetsEveryField | openregistry/api/models/ocds.py:117-130 | after an import every field the input names holds its converted value, every declared field it leaves out holds its default or None, and only undeclared keys keep their old values |
| Documents.ImportClearsMissing | openregistry/api/models/ocds.py:124-129 | an import that leaves out the title clears it, and one that leaves out the id or dateModified stores the id and the dateModified clock reading generated for that import |
| Documents.UnchangedDropped | openregistry/api/models/ocds.py:125-127 | deleting the keys whose converted value equals the stored one leaves exactly the changes |
| Documents.MergeTwice | openregistry/api/models/ocds.py:125-129 | merging the same converted values again finds nothing to change |
| Documents.ReimportChangesNothing | openregistry/api/models/ocds.py:117-130 | importing the same data again with the same generated id and time finds nothing to change and leaves the fields as they are |
| Documents.ReimportUnderNewGeneration | openregistry/api/models/ocds.py:117-130 | data that names the id and both timestamps imports again later, under any generated id and time, without change |
| Documents.ReimportRegeneratesId | openregistry/api/models/ocds.py:95 | data that leaves out the id stores the newly generated id on every import |
| Documents.OnlyGeneratedDefaults | openregistry/api/models/ocds.py:95-112 | every Document field other than id, datePublished and dateModified defaults to None |
| Documents.DatesNeedNotAgree | openregistry/api/models/ocds.py:107-108 | the two timestamps of a new Document come from separate clock readings, so they can differ |
| Documents.DocumentKeys | openregistry/api/models/ocds.py:95-112 | Document's seventeen fields |
| Documents.DocumentDefaultsGiven | openregistry/api/models/ocds.py:95-109 | id defaults to a fresh id; datePublished and dateModified each default to their own clock reading |
| Documents.DocumentDefaultValues | openregistry/api/models/ocds.py:95-109 | a new Document's id is the generated id and each timestamp is its own clock reading |
| Documents.DocumentDefaultKeys | openregistry/api/models/ocds.py:95-112 | no Document field other than id, datePublished and dateModified has a default |
| Documents.DocumentDefaults | openregistry/api/models/ocds.py:95-112 | a new Document's defaults are a generated id and the two timestamps, each its own clock reading, and nothing else |
| Documents.FormatChecked | openregistry/api/models/ocds.py:105 | a Document fails on format with the pattern message exactly when its format is not a media type under the whole-string pattern |
| Documents.HashChecked | openregistry/api/models/ocds.py:96 | a Document whose hash does not parse fails on hash with the parser's message; a hash that parses is never reported |
| Documents.DocumentIdDefault | openregistry/api/models/ocds.py:95 | a valid Document has an id: the one given, or else the generated one |
| Documents.Document.constructor | openregistry/api/models/ocds.py:95-109 | a new Document holds every field: the generated id, each timestamp at its own clock reading, None elsewhere; that is what creating it from no data, strictly, yields |
| Documents.Document.ImportData | openregistry/api/models/ocds.py:117-130 | on a conversion error nothing is written and the errors are returned; otherwise the stored fields become the old ones updated with the changed values of every declared field, and every declared field stays stored |
| Documents.Document.DropUnchanged | openregistry/api/models/ocds.py:125-127 | the converted values left after deleting every key whose value equals the stored one are exactly the changes |
| App.Split | openregistry/api/app.py:64 | the pieces of a split contain no separator, and there is at least one |
| App.JoinSplit | openregistry/api/app.py:64 | joining the pieces gives back the split string |
| App.SplitJoin | openregistry/api/app.py:43 | splitting a join of separator-free names gives back the names |
| App.Prefix8 | openregistry/api/app.py:65 | the first eight characters of a key, or the whole of a shorter key |
| App.EmptyDockeysRegistersEmptyKey | openregistry/api/app.py:63-65 | a `dockeys` setting that is present but empty registers one empty key under the empty prefix instead of the signer's own key |
| App.BuildKeyring | openregistry/api/app.py:61-65 | the keyring registers, in order from empty, every entry of the `dockeys` setting (or the signer's own key when there is none) |
| App.KeyringKeys | openregistry/api/app.py:62-65 | the keyring's keys are exactly the prefixes of the entries |
| App.LastEntryWins | openregistry/api/app.py:64-65 | under each prefix is the verifier of the last entry with that prefix |
| App.OwnKeyWhenUnset | openregistry/api/app.py:61-63 | without `dockeys` the keyring is exactly the signer's own key under its prefix |
| App.OwnKeyNotAdded | openregistry/api/app.py:63 | with `dockeys` the signer's own prefix is present exactly when a configured entry has it |
| App.EveryEntryRegistered | openregistry/api/app.py:63-65 | every configured entry's prefix is in the keyring |
| App.LoadPlugins | openregistry/api/app.py:43-47 | loads, in order, exactly the selected entry points |
| App.LoadedIffSelected | openregistry/api/app.py:43-47 | an entry point is loaded exactly when the `plugins` setting is absent or empty or names it |
| App.SelectedFromList | openregistry/api/app.py:43 | a non-empty comma-separated list selects exactly the names it lists |

## Left out

- Timestamps are integers. ISO-8601 parsing, time zones and the datetime overflow cases of `IsoDateTimeType` are not modelled; only the order of instants matters.
- URL, e-mail and MD5 formats (`URLType`, `EmailType`, `MD5Type`) accept any string. Their syntax checks live in schematics and are not part of this model.
- The fresh id (`uuid4().hex`) and the clock readings are a `Generated` parameter, not random or read from a clock. Reading `k` of the clock is the time of the `k`-th dated default of a model; the model does not constrain the readings to be ordered.
- Amounts are real numbers. An integer amount converts to the same real number. Floating-point rounding is not modelled; the minimum of 0 is.
- `Document.download_url` and URL signing through `serialize_document_url` are not part of this model. The stored url is serialized as it is.
- The libnacl `Signer` and `Verifier` are opaque. A verifier is the key text it was built from, and the signer's hex verification key is a parameter.
- The hash type is modelled from its observable behaviour. Its implementation file is not part of this model.
- The role blacklists of the roles module are not part of this model; they are a `Roles` parameter. Serializing a model under a role its entity does not list fails (`SerializeModel`); the message text is not modelled, only the role it names. No role at all, and a role a nested model does not list, use the entity's "default" blacklist when it has one and hide nothing otherwise.
- The constants module is not part of this model. `DEFAULT_CURRENCY` is "UAH"; the other tables are a `Constants` parameter. In Python a code table given as a plain string is searched by substring; here code tables are sets.
- The casts of `StringType` (a number to text), `FloatType` and `IntType` (a numeric string to a number) and `BooleanType` ("true", "1" and similar to a boolean) are not modelled: a value of the wrong shape fails conversion. The one cast kept is an integer given to a `FloatType`, which converts to the same real number. The coercions of `ListType` (a single value wrapped, "[]" as empty, an index-keyed mapping read as a list) are modelled.
- A mapping whose keys are not all integers, given to a list field, raises an exception out of schematics' `ListType`; here it is the field error `NotIndexed`, reported beside the other field errors. Keys that are integers but not written canonically ("01", " 1", "+1") are not list indices here and fail the same way, while Python's `int` reads them, and can repeat a value or raise `KeyError`.
- The text of the rogue-field message and the order in which schematics reports rogue keys and field errors are not modelled: both are in one error map.
- The order and exact wording of schematics messages are not modelled. Each message is a constructor of `Base.Message`.
- Assigning a field directly (`contact.telephone = None`) is modelled as removing the key from the field map.
- The Pyramid configurator, CouchDB, migrations, subscribers and the plugin call `plugin(config)` are I/O and framework wiring and are not modelled. `LoadPlugins` returns the names it would load.
- An explicit null in the input (`{"title": None}`) is not modelled: the input map holds no None values. An unset field is None in the stored Document, and the converted data of an import holds None for every declared field it leaves without a value.
- Documents.FormatChecked: validation here uses the whole-string pattern `IsMediaType`, so a format with a trailing newline fails; the source's `re.match` lets it through (`IsMediaTypeAsWritten`, see Findings).
- Documents.Document.DropUnchanged: the input's iteration order and Python's list of keys to delete are modelled as sets, so the order of deletions is not captured. It does not matter to the result.

## Findings

| source | as written | input that shows it | evidently intended | confidence | as-written member | corrected member |
|---|---|---|---|---|---|---|
| openregistry/api/models/ocds.py:105 | `format` is checked with `re.match` against `^[-\w]+/[-\.\w\+]+$`, and Python's `$` also matches before a final newline (`Ocds.IsMediaTypeAsWritten`) | "text/plain\n" | the whole value is a media type with no trailing newline (`Ocds.IsMediaType`, used by validation) | not executed | Ocds.TrailingNewlineAccepted | Ocds.MediaTypeCharacters |
