/** The project request record and its declarative field constraints. */
module ProjectRequestDto {
  import opened Values
  import opened Constraints

  datatype ProjectRequest = ProjectRequest(
    name: Text,
    field: Text,
    experience: Text,
    description: Text,
    deadline: Option<Date>)

  const ShortTextMin := 2
  const ShortTextMax := 50
  const DescriptionMin := 2
  const DescriptionMax := 500

  const NameBlankMessage := "Name must not be empty"
  const FieldBlankMessage := "field must not be empty"
  const ExperienceBlankMessage := "experience must not be empty"
  const DescriptionBlankMessage := "Description must not be empty"
  /** The record reuses the name's size message for `field` and `experience`. */
  const ShortTextSizeMessage := "Length of the name should be between 2 and 50 symbols"
  const DescriptionSizeMessage := "Length of the description should be between 2 and 500 symbols"
  const DeadlineNullMessage := "Deadline cannot be null"

  /** A present text with a character above U+0020 and a length in `min..max`. */
  predicate FilledWithin(s: Text, min: nat, max: nat) {
    match s
    case None => false
    case Some(t) => min <= |t| <= max && exists i :: 0 <= i < |t| && t[i] > ' '
  }

  /** What the record's annotations accept, field by field. */
  predicate ValidName(r: ProjectRequest) { FilledWithin(r.name, ShortTextMin, ShortTextMax) }
  predicate ValidField(r: ProjectRequest) { FilledWithin(r.field, ShortTextMin, ShortTextMax) }
  predicate ValidExperience(r: ProjectRequest) { FilledWithin(r.experience, ShortTextMin, ShortTextMax) }
  predicate ValidDescription(r: ProjectRequest) { FilledWithin(r.description, DescriptionMin, DescriptionMax) }
  predicate ValidDeadline(r: ProjectRequest) { r.deadline.Some? }

  predicate Valid(r: ProjectRequest) {
    ValidName(r) && ValidField(r) && ValidExperience(r) && ValidDescription(r) && ValidDeadline(r)
  }

  /** The messages a constraint on `field` can report. */
  function MessagesFor(field: string): (messages: set<string>) {
    if field == "name" then {NameBlankMessage, ShortTextSizeMessage}
    else if field == "field" then {FieldBlankMessage, ShortTextSizeMessage}
    else if field == "experience" then {ExperienceBlankMessage, ShortTextSizeMessage}
    else if field == "description" then {DescriptionBlankMessage, DescriptionSizeMessage}
    else if field == "deadline" then {DeadlineNullMessage}
    else {}
  }

  /** The errors of the two annotations on one text field. */
  function TextErrors(s: Text, field: string, blankMessage: string, min: nat, max: nat, sizeMessage: string): (errors: seq<FieldError>)
    requires blankMessage != sizeMessage
    ensures errors == [] <==> FilledWithin(s, min, max)
    ensures forall e :: e in errors <==>
      (!NotBlank(s) && e == FieldError(field, blankMessage)) || (!SizeWithin(s, min, max) && e == FieldError(field, sizeMessage))
  {
    Check(NotBlank(s), field, blankMessage) + Check(SizeWithin(s, min, max), field, sizeMessage)
  }

  /** `e` is the error of one of the record's annotations, and the value
      under that annotation fails it. */
  predicate Violation(r: ProjectRequest, e: FieldError)
  {
    || (!NotBlank(r.name) && e == FieldError("name", NameBlankMessage))
    || (!SizeWithin(r.name, ShortTextMin, ShortTextMax) && e == FieldError("name", ShortTextSizeMessage))
    || (!NotBlank(r.field) && e == FieldError("field", FieldBlankMessage))
    || (!SizeWithin(r.field, ShortTextMin, ShortTextMax) && e == FieldError("field", ShortTextSizeMessage))
    || (!NotBlank(r.experience) && e == FieldError("experience", ExperienceBlankMessage))
    || (!SizeWithin(r.experience, ShortTextMin, ShortTextMax) && e == FieldError("experience", ShortTextSizeMessage))
    || (!NotBlank(r.description) && e == FieldError("description", DescriptionBlankMessage))
    || (!SizeWithin(r.description, DescriptionMin, DescriptionMax) && e == FieldError("description", DescriptionSizeMessage))
    || (r.deadline.None? && e == FieldError("deadline", DeadlineNullMessage))
  }

  /** Every annotation's error carries one of the messages declared on its field. */
  lemma ViolationMessages(r: ProjectRequest)
    ensures forall e :: Violation(r, e) ==> e.message in MessagesFor(e.field)
  {
  }

  /** A record satisfies its annotations exactly when none of them is violated. */
  lemma ValidWithoutViolation(r: ProjectRequest)
    ensures Valid(r) <==> forall e :: !Violation(r, e)
  {
    if !Valid(r) {
      var failed := if !NotBlank(r.name) then FieldError("name", NameBlankMessage)
        else if !SizeWithin(r.name, ShortTextMin, ShortTextMax) then FieldError("name", ShortTextSizeMessage)
        else if !NotBlank(r.field) then FieldError("field", FieldBlankMessage)
        else if !SizeWithin(r.field, ShortTextMin, ShortTextMax) then FieldError("field", ShortTextSizeMessage)
        else if !NotBlank(r.experience) then FieldError("experience", ExperienceBlankMessage)
        else if !SizeWithin(r.experience, ShortTextMin, ShortTextMax) then FieldError("experience", ShortTextSizeMessage)
        else if !NotBlank(r.description) then FieldError("description", DescriptionBlankMessage)
        else if !SizeWithin(r.description, DescriptionMin, DescriptionMax) then FieldError("description", DescriptionSizeMessage)
        else FieldError("deadline", DeadlineNullMessage);
      assert Violation(r, failed);
    }
  }

  /** The annotations' errors, side by side, hold exactly the violations. */
  lemma ViolationsReported(r: ProjectRequest)
    ensures forall e ::
      e in (TextErrors(r.name, "name", NameBlankMessage, ShortTextMin, ShortTextMax, ShortTextSizeMessage)
        + TextErrors(r.field, "field", FieldBlankMessage, ShortTextMin, ShortTextMax, ShortTextSizeMessage)
        + TextErrors(r.experience, "experience", ExperienceBlankMessage, ShortTextMin, ShortTextMax, ShortTextSizeMessage)
        + TextErrors(r.description, "description", DescriptionBlankMessage, DescriptionMin, DescriptionMax, DescriptionSizeMessage)
        + Check(r.deadline.Some?, "deadline", DeadlineNullMessage))
      <==> Violation(r, e)
  {
  }

  /** Every violated constraint of the record, one error per annotation,
      in declaration order. */
  function Errors(r: ProjectRequest): (errors: seq<FieldError>)
    ensures errors == [] <==> Valid(r)
    ensures forall e :: e in errors ==> e.message in MessagesFor(e.field)
    ensures forall e :: e in errors <==> Violation(r, e)
  {
    ViolationMessages(r);
    ValidWithoutViolation(r);
    ViolationsReported(r);
    var errors :=
      TextErrors(r.name, "name", NameBlankMessage, ShortTextMin, ShortTextMax, ShortTextSizeMessage)
      + TextErrors(r.field, "field", FieldBlankMessage, ShortTextMin, ShortTextMax, ShortTextSizeMessage)
      + TextErrors(r.experience, "experience", ExperienceBlankMessage, ShortTextMin, ShortTextMax, ShortTextSizeMessage)
      + TextErrors(r.description, "description", DescriptionBlankMessage, DescriptionMin, DescriptionMax, DescriptionSizeMessage)
      + Check(r.deadline.Some?, "deadline", DeadlineNullMessage);
    assert errors != [] ==> errors[0] in errors;
    errors
  }

  /** A field is reported exactly when the record's constraints reject it. */
  lemma ErrorsNameViolatedFields(r: ProjectRequest)
    ensures FieldsOf(Errors(r)) ==
      (if ValidName(r) then {} else {"name"}) + (if ValidField(r) then {} else {"field"})
      + (if ValidExperience(r) then {} else {"experience"}) + (if ValidDescription(r) then {} else {"description"})
      + (if ValidDeadline(r) then {} else {"deadline"})
  {
    var name := TextErrors(r.name, "name", NameBlankMessage, ShortTextMin, ShortTextMax, ShortTextSizeMessage);
    var field := TextErrors(r.field, "field", FieldBlankMessage, ShortTextMin, ShortTextMax, ShortTextSizeMessage);
    var experience := TextErrors(r.experience, "experience", ExperienceBlankMessage, ShortTextMin, ShortTextMax, ShortTextSizeMessage);
    var description := TextErrors(r.description, "description", DescriptionBlankMessage, DescriptionMin, DescriptionMax, DescriptionSizeMessage);
    var deadline := Check(r.deadline.Some?, "deadline", DeadlineNullMessage);
    FieldsOfOneField(name, "name");
    FieldsOfOneField(field, "field");
    FieldsOfOneField(experience, "experience");
    FieldsOfOneField(description, "description");
    FieldsOfOneField(deadline, "deadline");
    FieldsOfAppend(name, field);
    FieldsOfAppend(name + field, experience);
    FieldsOfAppend(name + field + experience, description);
    FieldsOfAppend(name + field + experience + description, deadline);
  }

  /** An empty name breaks both of its annotations, so both messages are reported. */
  lemma EmptyNameBreaksBothConstraints(r: ProjectRequest)
    requires r.name == Some("")
    ensures FieldError("name", NameBlankMessage) in Errors(r)
    ensures FieldError("name", ShortTextSizeMessage) in Errors(r)
  {
  }
}
