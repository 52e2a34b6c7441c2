/** The vacancy request record and its declarative field constraints. */
module VacancyRequestDto {
  import opened Values
  import opened Constraints

  datatype VacancyRequest = VacancyRequest(
    name: Text,
    field: Text,
    experience: Text,
    country: Text,
    description: Text)

  const TextMax := 255
  const DescriptionMax := 1000

  const NameBlankMessage := "Name cannot be empty"
  const NameSizeMessage := "Name cannot exceed 255 characters"
  const FieldSizeMessage := "Field cannot exceed 255 characters"
  const ExperienceSizeMessage := "Experience cannot exceed 255 characters"
  const CountrySizeMessage := "Country cannot exceed 255 characters"
  const DescriptionSizeMessage := "Description cannot exceed 1000 characters"

  /** An optional text: absent, or present with at most `max` characters. */
  predicate AbsentOrAtMost(s: Text, max: nat) {
    match s
    case None => true
    case Some(t) => |t| <= max
  }

  predicate ValidName(r: VacancyRequest) {
    match r.name
    case None => false
    case Some(t) => |t| <= TextMax && exists i :: 0 <= i < |t| && t[i] > ' '
  }
  predicate ValidField(r: VacancyRequest) { AbsentOrAtMost(r.field, TextMax) }
  predicate ValidExperience(r: VacancyRequest) { AbsentOrAtMost(r.experience, TextMax) }
  predicate ValidCountry(r: VacancyRequest) { AbsentOrAtMost(r.country, TextMax) }
  predicate ValidDescription(r: VacancyRequest) { AbsentOrAtMost(r.description, DescriptionMax) }

  predicate Valid(r: VacancyRequest) {
    ValidName(r) && ValidField(r) && ValidExperience(r) && ValidCountry(r) && ValidDescription(r)
  }

  /** The messages a constraint on `field` can report. */
  function MessagesFor(field: string): (messages: set<string>) {
    if field == "name" then {NameBlankMessage, NameSizeMessage}
    else if field == "field" then {FieldSizeMessage}
    else if field == "experience" then {ExperienceSizeMessage}
    else if field == "country" then {CountrySizeMessage}
    else if field == "description" then {DescriptionSizeMessage}
    else {}
  }

  /** The errors of the name's two annotations. */
  function NameErrors(r: VacancyRequest): (errors: seq<FieldError>)
    ensures errors == [] <==> ValidName(r)
    ensures forall e :: e in errors <==>
      (!NotBlank(r.name) && e == FieldError("name", NameBlankMessage))
      || (!SizeWithin(r.name, 0, TextMax) && e == FieldError("name", NameSizeMessage))
  {
    Check(NotBlank(r.name), "name", NameBlankMessage) + Check(SizeWithin(r.name, 0, TextMax), "name", NameSizeMessage)
  }

  /** `e` is the error of one of the record's annotations, and the value
      under that annotation fails it. */
  predicate Violation(r: VacancyRequest, e: FieldError)
  {
    || (!NotBlank(r.name) && e == FieldError("name", NameBlankMessage))
    || (!SizeWithin(r.name, 0, TextMax) && e == FieldError("name", NameSizeMessage))
    || (!SizeWithin(r.field, 0, TextMax) && e == FieldError("field", FieldSizeMessage))
    || (!SizeWithin(r.experience, 0, TextMax) && e == FieldError("experience", ExperienceSizeMessage))
    || (!SizeWithin(r.country, 0, TextMax) && e == FieldError("country", CountrySizeMessage))
    || (!SizeWithin(r.description, 0, DescriptionMax) && e == FieldError("description", DescriptionSizeMessage))
  }

  /** Every annotation's error carries one of the messages declared on its field. */
  lemma ViolationMessages(r: VacancyRequest)
    ensures forall e :: Violation(r, e) ==> e.message in MessagesFor(e.field)
  {
  }

  /** A record satisfies its annotations exactly when none of them is violated. */
  lemma ValidWithoutViolation(r: VacancyRequest)
    ensures Valid(r) <==> forall e :: !Violation(r, e)
  {
    if !Valid(r) {
      var failed := if !NotBlank(r.name) then FieldError("name", NameBlankMessage)
        else if !SizeWithin(r.name, 0, TextMax) then FieldError("name", NameSizeMessage)
        else if !SizeWithin(r.field, 0, TextMax) then FieldError("field", FieldSizeMessage)
        else if !SizeWithin(r.experience, 0, TextMax) then FieldError("experience", ExperienceSizeMessage)
        else if !SizeWithin(r.country, 0, TextMax) then FieldError("country", CountrySizeMessage)
        else FieldError("description", DescriptionSizeMessage);
      assert Violation(r, failed);
    }
  }

  /** The annotations' errors, side by side, hold exactly the violations. */
  lemma ViolationsReported(r: VacancyRequest)
    ensures forall e ::
      e in (NameErrors(r)
        + Check(SizeWithin(r.field, 0, TextMax), "field", FieldSizeMessage)
        + Check(SizeWithin(r.experience, 0, TextMax), "experience", ExperienceSizeMessage)
        + Check(SizeWithin(r.country, 0, TextMax), "country", CountrySizeMessage)
        + Check(SizeWithin(r.description, 0, DescriptionMax), "description", DescriptionSizeMessage))
      <==> Violation(r, e)
  {
  }

  /** Every violated constraint of the record, one error per annotation,
      in declaration order. */
  function Errors(r: VacancyRequest): (errors: seq<FieldError>)
    ensures errors == [] <==> Valid(r)
    ensures forall e :: e in errors ==> e.message in MessagesFor(e.field)
    ensures forall e :: e in errors <==> Violation(r, e)
  {
    ViolationMessages(r);
    ValidWithoutViolation(r);
    ViolationsReported(r);
    var errors :=
      NameErrors(r)
      + Check(SizeWithin(r.field, 0, TextMax), "field", FieldSizeMessage)
      + Check(SizeWithin(r.experience, 0, TextMax), "experience", ExperienceSizeMessage)
      + Check(SizeWithin(r.country, 0, TextMax), "country", CountrySizeMessage)
      + Check(SizeWithin(r.description, 0, DescriptionMax), "description", DescriptionSizeMessage);
    assert errors != [] ==> errors[0] in errors;
    errors
  }

  /** A field is reported exactly when the record's constraints reject it. */
  lemma ErrorsNameViolatedFields(r: VacancyRequest)
    ensures FieldsOf(Errors(r)) ==
      (if ValidName(r) then {} else {"name"}) + (if ValidField(r) then {} else {"field"})
      + (if ValidExperience(r) then {} else {"experience"}) + (if ValidCountry(r) then {} else {"country"})
      + (if ValidDescription(r) then {} else {"description"})
  {
    var name := NameErrors(r);
    var field := Check(SizeWithin(r.field, 0, TextMax), "field", FieldSizeMessage);
    var experience := Check(SizeWithin(r.experience, 0, TextMax), "experience", ExperienceSizeMessage);
    var country := Check(SizeWithin(r.country, 0, TextMax), "country", CountrySizeMessage);
    var description := Check(SizeWithin(r.description, 0, DescriptionMax), "description", DescriptionSizeMessage);
    FieldsOfOneField(name, "name");
    FieldsOfOneField(field, "field");
    FieldsOfOneField(experience, "experience");
    FieldsOfOneField(country, "country");
    FieldsOfOneField(description, "description");
    FieldsOfAppend(name, field);
    FieldsOfAppend(name + field, experience);
    FieldsOfAppend(name + field + experience, country);
    FieldsOfAppend(name + field + experience + country, description);
  }

  /** No vacancy field has a minimum length: a single visible character is a
      valid name, and the optional fields may be absent. */
  lemma OneCharacterNameIsValid(c: char)
    requires c > ' '
    ensures Valid(VacancyRequest(Some([c]), None, None, None, None))
  {
    assert [c][0] > ' ';
  }
}
