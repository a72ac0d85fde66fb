/**
 * The client's form validators: an e-mail pattern, a minimum password length, a required
 * field, and `validateForm`, which runs a list of validators per field and keeps the first
 * failure of each. Validator results are JavaScript values, since the validators return
 * their falsy input unchanged and `validateForm` tests results with `!== true`.
 */
module Validation {
  import opened Common
  import GameFormat

  /** The JavaScript values a validator can return. */
  datatype JsVal = Undefined | Bool(b: bool) | Str(s: string)

  // ---------------------------------------------------------------------------------------
  // E-mail
  // ---------------------------------------------------------------------------------------

  /** `[^\s@]`: neither white space nor `@`. */
  predicate Plain(c: char) {
    !GameFormat.JsSpace(c) && c != '@'
  }

  predicate AllPlain(s: string) {
    forall k :: 0 <= k < |s| ==> Plain(s[k])
  }

  /**
   * `validateEmail`: the pattern `^[^\s@]+@[^\s@]+\.[^\s@]+$` matches, that is the text splits
   * at an `@` (position `i`) and a later `.` (position `j`) into three non-empty plain runs.
   */
  predicate ValidateEmail(email: string) {
    exists i | 0 < i < |email| ::
      exists j | i + 1 < j < |email| - 1 ::
        email[i] == '@' && email[j] == '.'
        && AllPlain(email[..i]) && AllPlain(email[i + 1..j]) && AllPlain(email[j + 1..])
  }

  /**
   * The same condition stated without the pattern: exactly one `@`, not at the start, no white
   * space, and a `.` after the `@` that is neither the first nor the last character there.
   */
  predicate EmailShape(email: string) {
    && (forall k :: 0 <= k < |email| ==> !GameFormat.JsSpace(email[k]))
    && exists at | 0 < at < |email| ::
      && email[at] == '@'
      && (forall k :: 0 <= k < |email| && k != at ==> email[k] != '@')
      && exists d | at + 1 < d < |email| - 1 :: email[d] == '.'
  }

  lemma EmailPatternGivesShape(email: string, i: int, j: int)
    requires 0 < i && i + 1 < j < |email| - 1 && email[i] == '@' && email[j] == '.'
    requires AllPlain(email[..i]) && AllPlain(email[i + 1..j]) && AllPlain(email[j + 1..])
    ensures EmailShape(email)
  {
    forall k | 0 <= k < |email| && k != i
      ensures Plain(email[k]) || k == j
    {
      if k < i {
        assert email[k] == email[..i][k];
      } else if i < k < j {
        assert email[k] == email[i + 1..j][k - i - 1];
      } else if k > j {
        assert email[k] == email[j + 1..][k - j - 1];
      }
    }
    assert forall k :: 0 <= k < |email| ==> !GameFormat.JsSpace(email[k]);
    assert forall k :: 0 <= k < |email| && k != i ==> email[k] != '@';
  }

  lemma EmailShapeGivesPattern(email: string)
    requires EmailShape(email)
    ensures ValidateEmail(email)
  {
    var at :| 0 < at < |email| && email[at] == '@'
      && (forall k :: 0 <= k < |email| && k != at ==> email[k] != '@')
      && exists d | at + 1 < d < |email| - 1 :: email[d] == '.';
    var d :| at + 1 < d < |email| - 1 && email[d] == '.';
    assert forall k :: 0 <= k < |email| && k != at ==> Plain(email[k]);
    assert AllPlain(email[..at]);
    assert AllPlain(email[at + 1..d]);
    assert AllPlain(email[d + 1..]);
  }

  /** The pattern and the plain description accept exactly the same texts. */
  lemma EmailCharacterisation(email: string)
    ensures ValidateEmail(email) <==> EmailShape(email)
  {
    if ValidateEmail(email) {
      var i :| 0 < i < |email| && exists j | i + 1 < j < |email| - 1 ::
        email[i] == '@' && email[j] == '.'
        && AllPlain(email[..i]) && AllPlain(email[i + 1..j]) && AllPlain(email[j + 1..]);
      var j :| i + 1 < j < |email| - 1 && email[i] == '@' && email[j] == '.'
        && AllPlain(email[..i]) && AllPlain(email[i + 1..j]) && AllPlain(email[j + 1..]);
      EmailPatternGivesShape(email, i, j);
    }
    if EmailShape(email) {
      EmailShapeGivesPattern(email);
    }
  }

  // ---------------------------------------------------------------------------------------
  // Password and required fields
  // ---------------------------------------------------------------------------------------

  /** A form value: a string, or `undefined` for a field the form does not hold. */
  function AsJs(value: Option<string>): JsVal {
    if value.None? then Undefined else Str(value.value)
  }

  /** `password && password.length >= 6`: a falsy input is returned as it is. */
  function ValidatePassword(password: Option<string>): (r: JsVal)
    ensures r == Bool(true) <==> password.Some? && |password.value| >= 6
    ensures !Truthy(password) ==> r == AsJs(password)
  {
    if !Truthy(password) then AsJs(password) else Bool(|password.value| >= 6)
  }

  /** `value && value.trim().length > 0`: a falsy input is returned as it is. */
  function ValidateRequired(value: Option<string>): (r: JsVal)
    ensures !Truthy(value) ==> r == AsJs(value)
  {
    if !Truthy(value) then AsJs(value) else Bool(|GameFormat.Trim(value.value)| > 0)
  }

  /** A character that is not white space survives trimming. */
  lemma TrimKeepsNonSpace(s: string, k: int)
    requires 0 <= k < |s| && !GameFormat.JsSpace(s[k])
    ensures GameFormat.Trim(s) != ""
  {
    var t := GameFormat.TrimStart(s);
    var off := |s| - |t|;
    assert k >= off;
    assert t[k - off] == s[k];
    var u := GameFormat.TrimEnd(t);
    assert k - off < |u|;
  }

  /** `validateRequired` accepts exactly the values with a character that is not white space. */
  lemma RequiredMeaning(value: Option<string>)
    ensures ValidateRequired(value) == Bool(true) <==>
      value.Some? && exists k :: 0 <= k < |value.value| && !GameFormat.JsSpace(value.value[k])
  {
    if value.Some? {
      var s := value.value;
      if k :| 0 <= k < |s| && !GameFormat.JsSpace(s[k]) {
        TrimKeepsNonSpace(s, k);
      }
    }
  }

  // ---------------------------------------------------------------------------------------
  // Whole forms
  // ---------------------------------------------------------------------------------------

  /** A validator: any function of the field's value. */
  type Validator = Option<string> -> JsVal

  /** `formData[field]`. */
  function FieldValue(formData: map<string, string>, field: string): Option<string> {
    if field in formData then Some(formData[field]) else None
  }

  /** Every validation before the `k`-th returns `true`. */
  predicate FailsFirstAt(validations: seq<Validator>, value: Option<string>, k: int) {
    0 <= k < |validations| && forall l :: 0 <= l < k ==> validations[l](value) == Bool(true)
  }

  /** The first result that is not exactly `true`, if any. */
  function FirstFailure(validations: seq<Validator>, value: Option<string>): (r: Option<JsVal>)
    ensures r.None? <==> forall k :: 0 <= k < |validations| ==> validations[k](value) == Bool(true)
    ensures r.Some? ==> r.value != Bool(true) && exists k :: FailsFirstAt(validations, value, k) && r.value == validations[k](value)
  {
    if |validations| == 0 then None
    else if validations[0](value) != Bool(true) then Some(validations[0](value))
    else
      var r := FirstFailure(validations[1..], value);
      assert forall k :: 1 <= k < |validations| ==> validations[1..][k - 1] == validations[k];
      if r.Some? then
        var k :| FailsFirstAt(validations[1..], value, k) && r.value == validations[1..][k](value);
        assert FailsFirstAt(validations, value, k + 1);
        r
      else r
  }

  /** The errors object after the rules up to and including each entry, in entry order. */
  function FormErrors(formData: map<string, string>, rules: seq<(string, seq<Validator>)>): (errors: map<string, JsVal>)
    ensures forall f :: f in errors ==> exists k :: 0 <= k < |rules| && rules[k].0 == f
    ensures forall f :: f in errors ==> errors[f] != Bool(true)
  {
    if |rules| == 0 then map[]
    else
      var errors := FormErrors(formData, rules[..|rules| - 1]);
      var (field, validations) := rules[|rules| - 1];
      var failure := FirstFailure(validations, FieldValue(formData, field));
      if failure.None? then errors
      else
        assert forall k :: 0 <= k < |rules| - 1 ==> rules[..|rules| - 1][k] == rules[k];
        errors[field := failure.value]
  }

  /** Fields the rules name once each, as the keys of an object are. */
  predicate DistinctFields(rules: seq<(string, seq<Validator>)>) {
    forall a, b :: 0 <= a < b < |rules| ==> rules[a].0 != rules[b].0
  }

  /**
   * With distinct fields, a field has an error exactly when one of its validations fails, and
   * the error is the first failing result.
   */
  lemma {:induction false} FormErrorsPerField(formData: map<string, string>, rules: seq<(string, seq<Validator>)>, k: int)
    requires DistinctFields(rules) && 0 <= k < |rules|
    ensures var failure := FirstFailure(rules[k].1, FieldValue(formData, rules[k].0));
      (rules[k].0 in FormErrors(formData, rules) <==> failure.Some?)
      && (failure.Some? ==> FormErrors(formData, rules)[rules[k].0] == failure.value)
  {
    var init := rules[..|rules| - 1];
    if k < |rules| - 1 {
      assert init[k] == rules[k];
      assert DistinctFields(init);
      FormErrorsPerField(formData, init, k);
      assert rules[|rules| - 1].0 != rules[k].0;
    }
  }

  /**
   * `validateForm`: for each rule entry, the validations run in order until one returns
   * something other than `true`, which becomes that field's error; the form is valid when no
   * field has an error.
   */
  method ValidateForm(formData: map<string, string>, rules: seq<(string, seq<Validator>)>)
    returns (isValid: bool, errors: map<string, JsVal>)
    ensures errors == FormErrors(formData, rules)
    ensures isValid <==> errors == map[]
    ensures forall f :: f in errors ==> exists k :: 0 <= k < |rules| && rules[k].0 == f
  {
    errors := map[];
    for i := 0 to |rules|
      invariant errors == FormErrors(formData, rules[..i])
    {
      assert rules[..i + 1][..i] == rules[..i];
      var (field, validations) := rules[i];
      var value := FieldValue(formData, field);
      var j := 0;
      while j < |validations|
        invariant 0 <= j <= |validations|
        invariant FirstFailure(validations[j..], value) == FirstFailure(validations, value)
      {
        var result := validations[j](value);
        if result != Bool(true) {
          errors := errors[field := result];
          break;
        }
        assert validations[j..][1..] == validations[j + 1..];
        j := j + 1;
      }
    }
    assert rules[..|rules|] == rules;
    isValid := |errors| == 0;
  }
}
