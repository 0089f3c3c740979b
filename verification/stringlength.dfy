/** The collection validator `StringLength`: it reads one attribute of a
    record and checks its length against a maximum, then a minimum, stopping
    at the first violation with a message built from a template. */
module StringLengthValidator {
  import opened Wrappers
  import opened Php
  import Text

  /** What a failed validation appends: the text, the field and the kind. */
  datatype Message = Message(text: string, field: string, kind: string)

  /** `validate` returns true (`Passed`) or appends one message and returns
      false (`Failed`). */
  datatype Verdict = Passed | Failed(message: Message)

  /** The exceptions `validate` throws, and the two inputs the model does
      not measure: a length of an array or object, a non-integer bound. */
  datatype ValidatorError =
    | FieldNotString
    | NoBounds
    | ValueNotMeasurable
    | BoundNotInteger

  function ErrorMessage(e: ValidatorError): string {
    match e
    case FieldNotString => "Field name must be a string"
    case NoBounds => "A minimum or maximum must be set"
    case ValueNotMeasurable => "value has no string length"
    case BoundNotInteger => "bound is not an integer"
  }

  /** The validator's options and `getOption`/`isSetOption` over them: a
      missing option reads as null, and a null option is not set. */
  function GetOption(options: Value, name: string): Value {
    Index(options, StrKey(name))
  }

  predicate IsSetOption(options: Value, name: string) {
    IsSet(options, StrKey(name))
  }

  /** `empty(value)`. */
  predicate Empty(v: Value) {
    !Truthy(v)
  }

  /** The character count of a value converted to a string; arrays and
      objects have none. */
  function Length(v: Value): (r: Option<nat>)
    ensures r.None? <==> v.Arr? || v.Obj?
    ensures v.Str? ==> r == Some(|v.s|)
  {
    if v.Arr? || v.Obj? then None else Some(|StrOf(v)|)
  }

  /** The default messages, spelled around their placeholders. */
  const MaximumTemplate := "Value of field '" + ":field" + "' exceeds the maximum " + ":max" + " characters"
  const MinimumTemplate := "Value of field '" + ":field" + "' is less than the minimum " + ":min" + " characters"

  /** The message option, or the template when it is empty. */
  function Template(options: Value, name: string, default: string): string {
    var message := GetOption(options, name);
    if Empty(message) then default else StrOf(message)
  }

  /** One bound, when its option is set: `None` when the length respects it,
      the message when it does not. */
  function CheckBound(options: Value, field: string, length: nat, isMax: bool): (r: Result<Option<Message>, ValidatorError>)
    requires IsSetOption(options, if isMax then "max" else "min")
    ensures r.Failure? <==> !GetOption(options, if isMax then "max" else "min").Int?
    ensures r.Success? ==>
              var bound := GetOption(options, if isMax then "max" else "min").n;
              (r.value.Some? <==> if isMax then length > bound else length < bound)
    ensures r.Success? && r.value.Some? ==>
              && r.value.value.field == field
              && r.value.value.kind == (if isMax then "TooLong" else "TooShort")
  {
    var bound := GetOption(options, if isMax then "max" else "min");
    if !bound.Int? then Failure(BoundNotInteger)
    else if isMax then
      if length > bound.n then
        var template := Template(options, "messageMaximum", MaximumTemplate);
        Success(Some(Message(Text.Strtr(template, map[":field" := field, ":max" := IntToString(bound.n)]), field, "TooLong")))
      else Success(None)
    else
      if length < bound.n then
        var template := Template(options, "messageMinimum", MinimumTemplate);
        Success(Some(Message(Text.Strtr(template, map[":field" := field, ":min" := IntToString(bound.n)]), field, "TooShort")))
      else Success(None)
  }

  /** `validate(record)`, the record given as its attribute array. */
  function Validate(options: Value, record: Value): (r: Result<Verdict, ValidatorError>)
    ensures !GetOption(options, "field").Str? ==> r == Failure(FieldNotString)
    ensures GetOption(options, "field").Str? && !IsSetOption(options, "min") && !IsSetOption(options, "max") ==>
              r == Failure(NoBounds)
    ensures r.Success? && r.value.Failed? ==> r.value.message.field == GetOption(options, "field").s
    ensures GetOption(options, "field").Str? && (IsSetOption(options, "min") || IsSetOption(options, "max")) &&
            IsSetOption(options, "allowEmpty") && Empty(Index(record, StrKey(GetOption(options, "field").s))) ==>
              r == Success(Passed)
    // a value that is not excused is measured: an array or object has no length
    ensures Reaches(options, record) && Length(Measured(options, record)).None? ==> r == Failure(ValueNotMeasurable)
    // a measured value reaches a verdict unless a bound that is consulted is not an integer
    ensures Reaches(options, record) && Length(Measured(options, record)).Some? ==>
              var length := Length(Measured(options, record)).value;
              var badBound := (IsSetOption(options, "max") && !GetOption(options, "max").Int?) ||
                              (!ExceedsMaximum(options, length) && IsSetOption(options, "min") && !GetOption(options, "min").Int?);
              && (r.Success? <==> !badBound)
              && (r.Failure? ==> r.error == BoundNotInteger)
  {
    var fieldOption := GetOption(options, "field");
    if !fieldOption.Str? then Failure(FieldNotString)
    else
      var field := fieldOption.s;
      var isSetMin := IsSetOption(options, "min");
      var isSetMax := IsSetOption(options, "max");
      if !isSetMin && !isSetMax then Failure(NoBounds)
      else
        var value := Index(record, StrKey(field));
        if IsSetOption(options, "allowEmpty") && Empty(value) then Success(Passed)
        else
          var measured := Length(value);
          if measured.None? then Failure(ValueNotMeasurable)
          else
            var length := measured.value;
            var tooLong :- if isSetMax then CheckBound(options, field, length, true) else Success(None);
            if tooLong.Some? then Success(Failed(tooLong.value))
            else
              var tooShort :- if isSetMin then CheckBound(options, field, length, false) else Success(None);
              if tooShort.Some? then Success(Failed(tooShort.value)) else Success(Passed)
  }

  /** The independent reading of the validator: a set integer maximum
      the length exceeds, or a set integer minimum it falls short of. */
  predicate ExceedsMaximum(options: Value, length: int) {
    IsSetOption(options, "max") && GetOption(options, "max").Int? && length > GetOption(options, "max").n
  }

  predicate BelowMinimum(options: Value, length: int) {
    IsSetOption(options, "min") && GetOption(options, "min").Int? && length < GetOption(options, "min").n
  }

  /** The value `validate` measures. */
  function Measured(options: Value, record: Value): Value {
    Index(record, StrKey(StrOf(GetOption(options, "field"))))
  }

  /** Whether `allowEmpty` lets the value through unmeasured. */
  predicate Excused(options: Value, record: Value) {
    IsSetOption(options, "allowEmpty") && Empty(Measured(options, record))
  }

  /** The validation gets past its checks of the options and of
      `allowEmpty` to measuring the value. */
  predicate Reaches(options: Value, record: Value) {
    && GetOption(options, "field").Str?
    && (IsSetOption(options, "min") || IsSetOption(options, "max"))
    && !Excused(options, record)
  }

  /** A validation that reaches a verdict rejects the value exactly when it
      is not excused and is out of bounds; the maximum is reported in
      preference to the minimum. */
  lemma FailsIffOutOfBounds(options: Value, record: Value)
    requires Validate(options, record).Success?
    ensures !Excused(options, record) ==> Length(Measured(options, record)).Some?
    ensures Validate(options, record).value.Failed? <==>
              !Excused(options, record) &&
              (ExceedsMaximum(options, Length(Measured(options, record)).value) ||
               BelowMinimum(options, Length(Measured(options, record)).value))
    ensures Validate(options, record).value.Failed? ==>
              (Validate(options, record).value.message.kind == "TooLong" <==>
                 ExceedsMaximum(options, Length(Measured(options, record)).value))
  {
  }

  /** The default maximum message names the field and the maximum. */
  lemma DefaultMaximumMessage(field: string, maximum: int)
    ensures Text.Strtr(MaximumTemplate, map[":field" := field, ":max" := IntToString(maximum)]) ==
            "Value of field '" + field + "' exceeds the maximum " + IntToString(maximum) + " characters"
  {
    assert ':' !in "' exceeds the maximum ";
    FillBoundTemplate("' exceeds the maximum ", ":max", field, IntToString(maximum));
  }

  /** The default minimum message names the field and the minimum. */
  lemma DefaultMinimumMessage(field: string, minimum: int)
    ensures Text.Strtr(MinimumTemplate, map[":field" := field, ":min" := IntToString(minimum)]) ==
            "Value of field '" + field + "' is less than the minimum " + IntToString(minimum) + " characters"
  {
    assert ':' !in "' is less than the minimum ";
    FillBoundTemplate("' is less than the minimum ", ":min", field, IntToString(minimum));
  }

  /** Both default templates share one shape: a field placeholder, a
      colon-free middle and a bound placeholder. */
  lemma FillBoundTemplate(middle: string, bound: string, field: string, text: string)
    requires bound == ":max" || bound == ":min"
    requires ':' !in middle
    ensures Text.Strtr("Value of field '" + ":field" + middle + bound + " characters", map[":field" := field, bound := text]) ==
            "Value of field '" + field + middle + text + " characters"
  {
    var pairs := map[":field" := field, bound := text];
    PlaceholdersUnextended(field, bound, text);
    assert ':' !in "Value of field '" && ':' !in " characters";
    Text.FillTwo("Value of field '", ":field", middle, bound, " characters", pairs, ':');
  }

  /** `:field` and a four-letter bound placeholder do not extend one
      another, and both start with a colon. */
  lemma PlaceholdersUnextended(field: string, bound: string, text: string)
    requires bound == ":max" || bound == ":min"
    ensures var pairs := map[":field" := field, bound := text];
            Text.KeysStartWith(pairs, ':') && Text.Unextended(":field", pairs) && Text.Unextended(bound, pairs)
  {
    var pairs := map[":field" := field, bound := text];
    forall k | k in pairs && |bound| < |k|
      ensures k[..|bound|] != bound
    {
      assert k == ":field";
      assert k[..|bound|][1] == 'f' != bound[1];
    }
  }

  /** Without a custom message, a rejection reads as the default text with
      the field and the violated bound filled in. */
  lemma DefaultMessages(options: Value, record: Value)
    requires Validate(options, record).Success? && Validate(options, record).value.Failed?
    ensures var m := Validate(options, record).value.message;
            && (m.kind == "TooLong" && Empty(GetOption(options, "messageMaximum")) ==>
                  m.text == "Value of field '" + m.field + "' exceeds the maximum " +
                            IntToString(GetOption(options, "max").n) + " characters")
            && (m.kind == "TooShort" && Empty(GetOption(options, "messageMinimum")) ==>
                  m.text == "Value of field '" + m.field + "' is less than the minimum " +
                            IntToString(GetOption(options, "min").n) + " characters")
  {
    var m := Validate(options, record).value.message;
    RejectionText(options, record);
    if m.kind == "TooLong" {
      DefaultMaximumMessage(m.field, GetOption(options, "max").n);
    } else {
      DefaultMinimumMessage(m.field, GetOption(options, "min").n);
    }
  }

  /** The message of a rejection is its template with the field and the
      violated bound substituted. */
  lemma RejectionText(options: Value, record: Value)
    requires Validate(options, record).Success? && Validate(options, record).value.Failed?
    ensures var m := Validate(options, record).value.message;
            && (m.kind == "TooLong" || m.kind == "TooShort")
            && (m.kind == "TooLong" ==>
                  GetOption(options, "max").Int? &&
                  m.text == Text.Strtr(Template(options, "messageMaximum", MaximumTemplate),
                                       map[":field" := m.field, ":max" := IntToString(GetOption(options, "max").n)]))
            && (m.kind == "TooShort" ==>
                  GetOption(options, "min").Int? &&
                  m.text == Text.Strtr(Template(options, "messageMinimum", MinimumTemplate),
                                       map[":field" := m.field, ":min" := IntToString(GetOption(options, "min").n)]))
  {
  }

  /** A custom message without placeholders is appended as written. */
  lemma CustomMessageKept(options: Value, record: Value)
    requires Validate(options, record).Success? && Validate(options, record).value.Failed?
    ensures var m := Validate(options, record).value.message;
            var custom := GetOption(options, if m.kind == "TooLong" then "messageMaximum" else "messageMinimum");
            custom.Str? && TruthyString(custom.s) && ':' !in custom.s ==> m.text == custom.s
  {
    var m := Validate(options, record).value.message;
    RejectionText(options, record);
    if m.kind == "TooLong" {
      TemplateKept(options, "messageMaximum", MaximumTemplate,
                   map[":field" := m.field, ":max" := IntToString(GetOption(options, "max").n)]);
    } else {
      TemplateKept(options, "messageMinimum", MinimumTemplate,
                   map[":field" := m.field, ":min" := IntToString(GetOption(options, "min").n)]);
    }
  }

  lemma TemplateKept(options: Value, name: string, default: string, pairs: map<string, string>)
    requires Text.KeysStartWith(pairs, ':')
    ensures var custom := GetOption(options, name);
            custom.Str? && TruthyString(custom.s) && ':' !in custom.s ==> Text.Strtr(Template(options, name, default), pairs) == custom.s
  {
    var custom := GetOption(options, name);
    if custom.Str? && TruthyString(custom.s) && ':' !in custom.s {
      Text.StrtrKeepsPlainText(custom.s, pairs, ':');
    }
  }
}
