/** The two Bean Validation constraints the request records use, and the
    field errors a failed validation reports. */
module Constraints {
  import opened Values

  /** `@NotBlank` as Hibernate Validator checks it: the value is not `null`
      and `String.trim()` leaves something, i.e. some character lies above
      U+0020 (trim strips exactly the characters up to U+0020). */
  predicate NotBlank(s: Text) {
    s.Some? && exists i :: 0 <= i < |s.value| && s.value[i] > ' '
  }

  /** `@Size(min, max)`: a `null` value is accepted; otherwise its length
      must lie in `min..max`, both ends included. */
  predicate SizeWithin(s: Text, min: nat, max: nat) {
    s.None? || min <= |s.value| <= max
  }

  /** One violated constraint: the field it is on and the constraint's message. */
  datatype FieldError = FieldError(field: string, message: string)

  /** The fields named by a list of errors. */
  function FieldsOf(errors: seq<FieldError>): (fields: set<string>) {
    set e | e in errors :: e.field
  }

  /** The error a constraint on `field` contributes: none when it holds. */
  function Check(holds: bool, field: string, message: string): (errors: seq<FieldError>)
    ensures holds <==> errors == []
    ensures forall e :: e in errors <==> !holds && e == FieldError(field, message)
  {
    if holds then [] else [FieldError(field, message)]
  }

  /** Errors that are all on one field name that field, or nothing when there are none. */
  lemma FieldsOfOneField(errors: seq<FieldError>, field: string)
    requires forall e :: e in errors ==> e.field == field
    ensures FieldsOf(errors) == if errors == [] then {} else {field}
  {
    if errors != [] {
      assert errors[0] in errors;
    }
  }

  lemma FieldsOfAppend(a: seq<FieldError>, b: seq<FieldError>)
    ensures FieldsOf(a + b) == FieldsOf(a) + FieldsOf(b)
  {
    assert forall e :: e in a + b <==> e in a || e in b;
  }
}
