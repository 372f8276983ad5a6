/** `NoteForm`: the model form bound to exactly the client-editable fields `username`,
    `content` and `is_public`. Cleaning follows the field classes it is built from: two
    stripped, required text fields (the `username` one capped at the schema's 100
    characters) and an optional check box. */
module Forms {
  import opened Wrappers
  import PyStr
  import opened Models

  /** Submitted form data, one value per name (`request.POST.get(name)`). */
  type FormData = map<string, string>

  function Get(data: FormData, name: string): Option<string> {
    if name in data then Some(data[name]) else None
  }

  /** The form's fields, in declaration order. */
  datatype Field = Username | Content | IsPublic

  function FieldName(f: Field): string {
    match f
    case Username => "username"
    case Content => "content"
    case IsPublic => "is_public"
  }

  /** One reason a field's value is refused: absent or blank, longer than allowed, holding a
      NUL character. */
  datatype FieldError = Required | MaxLength(limit: nat, length: nat) | NullCharacter

  /** The cleaned values of a valid form. */
  datatype NoteFields = NoteFields(username: string, content: string, isPublic: bool)

  datatype FormResult = Cleaned(fields: NoteFields) | Rejected(errors: map<Field, seq<FieldError>>)

  datatype TextResult = TextOk(value: string) | TextErrors(errors: seq<FieldError>)

  /** A value a cleaned text field can hold: non-empty, nothing to strip, no NUL. */
  predicate IsCleanText(s: string) {
    s != [] && !PyStr.IsSpace(s[0]) && !PyStr.IsSpace(s[|s| - 1]) && '\0' !in s
  }

  /** The values a valid form can produce; every stored note satisfies this. */
  predicate WellFormed(f: NoteFields) {
    IsCleanText(f.username) && |f.username| <= UsernameMaxLength && IsCleanText(f.content)
  }

  /** A required `CharField` with `strip=True` and the given `max_length`: the value is
      stripped, then refused as `Required` when empty; otherwise every validator runs and
      their errors are collected. */
  function CleanText(raw: Option<string>, maxLength: Option<nat>): (r: TextResult)
    ensures r.TextOk? <==> raw.Some? && IsCleanText(PyStr.Trim(raw.value))
                           && (maxLength.Some? ==> |PyStr.Trim(raw.value)| <= maxLength.value)
    ensures r.TextOk? ==> r.value == PyStr.Trim(raw.value)
    ensures r.TextOk? ==> IsCleanText(r.value) && (maxLength.Some? ==> |r.value| <= maxLength.value)
    ensures r.TextErrors? ==> r.errors != []
    ensures r == TextErrors([Required]) <==> raw.None? || PyStr.Trim(raw.value) == []
  {
    if raw.None? then TextErrors([Required])
    else
      var v := PyStr.Trim(raw.value);
      if v == [] then TextErrors([Required])
      else
        var errs := Validators(v, maxLength);
        PyStr.StripIdempotent(raw.value, PyStr.IsSpace);
        if errs == [] then TextOk(v) else TextErrors(errs)
  }

  /** The validators of a non-empty stripped value, in the order the field installs them:
      `MaxLengthValidator`, then `ProhibitNullCharactersValidator`. */
  function Validators(v: string, maxLength: Option<nat>): (errs: seq<FieldError>)
    ensures errs == [] <==> '\0' !in v && (maxLength.Some? ==> |v| <= maxLength.value)
    ensures Required !in errs
  {
    (if maxLength.Some? && |v| > maxLength.value then [MaxLength(maxLength.value, |v|)] else [])
      + (if '\0' in v then [NullCharacter] else [])
  }

  /** A `BooleanField(required=False)` drawn as a check box: an absent box is false, the
      strings "true" and "false" in any case mean what they say, anything else is true
      exactly when it is non-empty. Such a field never refuses a value. */
  function CheckboxValue(raw: Option<string>): (b: bool)
    ensures raw.None? ==> !b
    ensures b <==> raw.Some? && raw.value != [] && PyStr.AsciiLower(raw.value) != "false"
  {
    match raw
    case None => false
    case Some(s) =>
      var l := PyStr.AsciiLower(s);
      if l == "true" then true else if l == "false" then false else s != []
  }

  /** `form.is_valid()` and `form.cleaned_data`: valid exactly when both text fields clean,
      with one error list per failing field. */
  function Clean(data: FormData): (r: FormResult)
    ensures r.Cleaned? <==> CleanText(Get(data, "username"), Some(UsernameMaxLength)).TextOk?
                            && CleanText(Get(data, "content"), None).TextOk?
    ensures r.Cleaned? ==> WellFormed(r.fields)
    ensures r.Cleaned? ==> (&& "username" in data && "content" in data
                            && r.fields.username == PyStr.Trim(data["username"])
                            && r.fields.content == PyStr.Trim(data["content"])
                            && r.fields.isPublic == CheckboxValue(Get(data, "is_public")))
    ensures r.Rejected? ==> (&& r.errors != map[] && IsPublic !in r.errors
                             && forall f :: f in r.errors ==> r.errors[f] != [])
    ensures r.Rejected? ==>
      var u := CleanText(Get(data, "username"), Some(UsernameMaxLength));
      var c := CleanText(Get(data, "content"), None);
      && (Username in r.errors <==> u.TextErrors?)
      && (Content in r.errors <==> c.TextErrors?)
      && (Username in r.errors ==> r.errors[Username] == u.errors)
      && (Content in r.errors ==> r.errors[Content] == c.errors)
  {
    var u := CleanText(Get(data, "username"), Some(UsernameMaxLength));
    var c := CleanText(Get(data, "content"), None);
    var b := CheckboxValue(Get(data, "is_public"));
    if u.TextOk? && c.TextOk? then Cleaned(NoteFields(u.value, c.value, b))
    else Rejected(ErrorMap(u, c))
  }

  /** `form.errors`: one entry per text field that failed, holding its error list. */
  function ErrorMap(u: TextResult, c: TextResult): (errors: map<Field, seq<FieldError>>)
    requires u.TextErrors? || c.TextErrors?
    requires u.TextErrors? ==> u.errors != []
    requires c.TextErrors? ==> c.errors != []
    ensures Username in errors <==> u.TextErrors?
    ensures Content in errors <==> c.TextErrors?
    ensures IsPublic !in errors
    ensures Username in errors ==> errors[Username] == u.errors
    ensures Content in errors ==> errors[Content] == c.errors
    ensures errors != map[] && forall f :: f in errors ==> errors[f] != []
  {
    (if u.TextErrors? then map[Username := u.errors] else map[])
      + (if c.TextErrors? then map[Content := c.errors] else map[])
  }

  /** A form holding a well-formed username and content, and any check-box value, is valid,
      and its cleaned data are the submitted values. */
  lemma {:induction false} ValidDataAccepted(data: FormData)
    requires "username" in data && "content" in data
    requires WellFormed(NoteFields(data["username"], data["content"], false))
    ensures Clean(data) == Cleaned(NoteFields(data["username"], data["content"],
                                              CheckboxValue(Get(data, "is_public"))))
  {
  }

  /** A text field that is absent, empty or blank makes the form invalid with exactly the
      error `Required` on that field. */
  lemma {:induction false} BlankFieldRequired(data: FormData, f: Field)
    requires f != IsPublic
    requires FieldName(f) !in data || PyStr.Trim(data[FieldName(f)]) == []
    ensures Clean(data).Rejected?
    ensures f in Clean(data).errors && Clean(data).errors[f] == [Required]
  {
    if f == Username {
      assert CleanText(Get(data, "username"), Some(UsernameMaxLength)) == TextErrors([Required]);
    } else {
      assert CleanText(Get(data, "content"), None) == TextErrors([Required]);
    }
  }

  /** `is_public` is optional: leaving it out never invalidates a form, and a valid form without
      it is a private note. */
  lemma {:induction false} IsPublicOptional(data: FormData)
    ensures Clean(data - {"is_public"}).Cleaned? == Clean(data).Cleaned?
    ensures Clean(data - {"is_public"}).Cleaned? ==> !Clean(data - {"is_public"}).fields.isPublic
  {
    var d := data - {"is_public"};
    assert Get(d, "username") == Get(data, "username");
    assert Get(d, "content") == Get(data, "content");
  }

  /** Only the three form fields are read: a submission's other names (an `id`, a
      `created_at`, a `modification_code`) have no effect on what the form yields. */
  lemma {:induction false} OnlyFormFieldsBound(data: FormData, other: FormData)
    requires forall f: Field :: Get(data, FieldName(f)) == Get(other, FieldName(f))
    ensures Clean(data) == Clean(other)
  {
    assert Get(data, "username") == Get(other, "username") by {
      assert FieldName(Username) == "username";
    }
    assert Get(data, "content") == Get(other, "content") by {
      assert FieldName(Content) == "content";
    }
    assert Get(data, "is_public") == Get(other, "is_public") by {
      assert FieldName(IsPublic) == "is_public";
    }
  }

  /** The modification code travels in the same POST as the form but is not one of its
      fields, so it has no bearing on what the form yields. */
  lemma CodeNotBound(data: FormData, code: string)
    ensures Clean(data["modification_code" := code]) == Clean(data)
  {
    var sub := data["modification_code" := code];
    assert Get(sub, "username") == Get(data, "username");
    assert Get(sub, "content") == Get(data, "content");
    assert Get(sub, "is_public") == Get(data, "is_public");
  }

  /** What `NoteForm(instance=note)` submits when sent back unchanged: the two text values,
      and the check box's default value "on" only when it is ticked. */
  function Render(f: NoteFields): FormData {
    map["username" := f.username, "content" := f.content]
      + (if f.isPublic then map["is_public" := "on"] else map[])
  }

  /** A note's own values, rendered into the edit form and submitted unchanged, clean to
      themselves; together with `Clean`'s postcondition this makes cleaning idempotent. */
  lemma {:induction false} RenderCleanRoundTrip(f: NoteFields)
    requires WellFormed(f)
    ensures Clean(Render(f)) == Cleaned(f)
  {
    var d := Render(f);
    assert Get(d, "username") == Some(f.username);
    assert Get(d, "content") == Some(f.content);
    assert PyStr.AsciiLower("on") == "on";
    assert CheckboxValue(Get(d, "is_public")) == f.isPublic;
    ValidDataAccepted(d);
  }
}
