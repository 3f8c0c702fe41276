/** Shared result and error-report types of the entity layer. */
module Base {

  datatype Option<+T> = None | Some(value: T)

  datatype Result<+T, +E> = Success(value: T) | Failure(error: E)

  /** One message of a conversion or validation error, as schematics and the
      entity validators raise them. */
  datatype Message =
    | Required                          // "This field is required."
    | NotInChoices(choices: set<string>) // "Value must be one of {choices}."
    | TooShort                          // "String value is too short."
    | TooLong                           // "String value is too long."
    | PatternMismatch                   // "String value did not match validation regex."
    | BelowMin(min: real)               // "Float value should be greater than {min}."
    | NotConvertible                    // the raw value has the wrong shape for the field type
    | PeriodOrder                       // "period should begin before its end"
    | ContactMissing                    // "telephone or email should be present"
    | HashUnsupported                   // "Hash type is not supported."
    | HashWrongLength                   // "Hash value is wrong length."
    | HashNotHex                        // "Hash value is not hexadecimal."
    | RogueField                        // "Rogue field": an input key the model does not accept
    | NotIndexed                        // a mapping given to a list field whose keys are not list indices

  /** The errors reported for one field: its own messages, the grouped errors
      of a nested model, or the reports of the failing elements of a list. */
  datatype Report =
    | Messages(msgs: seq<Message>)
    | Nested(errors: map<string, Report>)
    | Items(failures: seq<Report>)

  /** Grouped errors of a model: field name to report. */
  type Errors = map<string, Report>

  /** Position of the first `ch` in s, or |s| when s has none. */
  function IndexOf(s: string, ch: char): (i: nat)
    ensures i <= |s|
    ensures forall j :: 0 <= j < i ==> s[j] != ch
    ensures i < |s| ==> s[i] == ch
  {
    if s == [] || s[0] == ch then 0 else 1 + IndexOf(s[1..], ch)
  }
}
