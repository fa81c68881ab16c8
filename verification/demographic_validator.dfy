/**
 `DemographicValidator`: a participant's demographic answer needs an app, a
 user and a category; the answer itself is not checked.
 */
module DemographicValidation {
  import opened Common

  datatype Category = Race | Ethnicity | Sex | Gender | Disease | BirthYear | BloodPressure | Height | Weight | Country

  datatype Demographic = Demographic(
    appId: Option<string>,
    userId: Option<string>,
    category: Option<Category>,
    answerValue: Option<string>)

  /** The position of a field among the checks. */
  function Rank(field: string): int {
    if field == "appId" then 0 else if field == "userId" then 1 else 2
  }

  /** `validate`: every applicable error, in field order. */
  function Validate(d: Demographic): (r: seq<FieldError>)
    ensures FieldError("appId", CannotBeBlank) in r <==> IsBlank(d.appId)
    ensures FieldError("userId", CannotBeBlank) in r <==> IsBlank(d.userId)
    ensures FieldError("category", CannotBeBlank) in r <==> d.category.None?
    ensures forall i :: 0 <= i < |r| ==> r[i].code == CannotBeBlank && r[i].field in {"appId", "userId", "category"}
    ensures forall i, j :: 0 <= i < j < |r| ==> Rank(r[i].field) < Rank(r[j].field)
  {
    (if IsBlank(d.appId) then [FieldError("appId", CannotBeBlank)] else [])
    + (if IsBlank(d.userId) then [FieldError("userId", CannotBeBlank)] else [])
    + (if d.category.None? then [FieldError("category", CannotBeBlank)] else [])
  }

  /** A record is valid iff appId and userId are non-blank and the category is set. */
  lemma ValidIff(d: Demographic)
    ensures Validate(d) == [] <==> !IsBlank(d.appId) && !IsBlank(d.userId) && d.category.Some?
  {
    if Validate(d) != [] {
      assert Validate(d)[0] in Validate(d);
    }
  }

  /** The answer value never affects validation. */
  lemma AnswerNotChecked(d: Demographic, answerValue: Option<string>)
    ensures Validate(d.(answerValue := answerValue)) == Validate(d)
  {
  }

  /** The checks are independent: changing one field changes only that
      field's error, so all applicable errors are reported together. */
  lemma ChecksIndependent(d: Demographic, appId: Option<string>, userId: Option<string>, category: Option<Category>)
    ensures var r := Validate(d);
      var a := Validate(d.(appId := appId));
      && (FieldError("userId", CannotBeBlank) in a <==> FieldError("userId", CannotBeBlank) in r)
      && (FieldError("category", CannotBeBlank) in a <==> FieldError("category", CannotBeBlank) in r)
    ensures var r := Validate(d);
      var u := Validate(d.(userId := userId));
      && (FieldError("appId", CannotBeBlank) in u <==> FieldError("appId", CannotBeBlank) in r)
      && (FieldError("category", CannotBeBlank) in u <==> FieldError("category", CannotBeBlank) in r)
    ensures var r := Validate(d);
      var c := Validate(d.(category := category));
      && (FieldError("appId", CannotBeBlank) in c <==> FieldError("appId", CannotBeBlank) in r)
      && (FieldError("userId", CannotBeBlank) in c <==> FieldError("userId", CannotBeBlank) in r)
  {
  }
}
