/** The patient profile page: the edit form filled from the fetched
    profile, the clean-up of the form before it is saved, the outcome of a
    save and the address line of the read-only view. Fetching and saving
    are outside the model; the fetched profile and the save's outcome are
    parameters. */
module Profile {
  import opened JsText

  /** The edit form, field name to text. */
  type Form = map<string, string>

  /** The profile fields other than the name; a missing or `null` field is
      `None`. */
  type ProfileFields = map<string, Option<string>>

  /** The fields of the edit form besides `name`. */
  const ProfileKeys: set<string> := {"phoneNumber", "address", "city", "state", "country",
    "dateOfBirth", "gender", "bloodGroup", "medicalHistory"}

  /** Every field of the edit form. */
  const FormKeys: set<string> := {"name"} + ProfileKeys

  /** `value || ''` for a profile field: absent, `null` and `''` all give `''`. */
  function OrEmpty(profile: ProfileFields, key: string): (r: string)
    ensures r != "" <==> key in profile && profile[key].Some? && profile[key].value != ""
    ensures r != "" ==> r == profile[key].value
  {
    if key in profile && profile[key].Some? then profile[key].value else ""
  }

  /** The form as filled after loading: the user's name as given, every
      other field the profile's text or `''`. */
  function InitForm(name: string, profile: ProfileFields): (f: Form)
    ensures f.Keys == FormKeys
    ensures f["name"] == name
    ensures forall k :: k in ProfileKeys ==> f[k] == OrEmpty(profile, k)
  {
    map k | k in FormKeys :: if k == "name" then name else OrEmpty(profile, k)
  }

  /** `handleInputChange`: the input named `key` takes the new text. */
  function SetField(f: Form, key: string, value: string): (g: Form)
    ensures g.Keys == f.Keys + {key}
    ensures g[key] == value
    ensures forall k :: k in f && k != key ==> g[k] == f[k]
  {
    f[key := value]
  }

  /** One cleaned value: the trimmed text, or `null` when nothing is left. */
  function CleanValue(s: string): Option<string>
  {
    var t := Trim(s);
    if t == "" then None else Some(t)
  }

  /** A cleaned value is `null` exactly when the text was blank, and
      otherwise non-empty with no whitespace at either end. */
  lemma CleanValueShape(s: string)
    ensures CleanValue(s) == None <==> forall i :: 0 <= i < |s| ==> IsJsSpace(s[i])
    ensures CleanValue(s).Some? ==>
      var v := CleanValue(s).value; v != "" && !IsJsSpace(v[0]) && !IsJsSpace(v[|v| - 1])
  {
    CleanValueBlank(s);
    CleanValueTrimmed(s);
  }

  lemma CleanValueBlank(s: string)
    ensures CleanValue(s) == None <==> forall i :: 0 <= i < |s| ==> IsJsSpace(s[i])
  {
    TrimEmptyIffBlank(s);
  }

  lemma CleanValueTrimmed(s: string)
    ensures CleanValue(s).Some? ==>
      var v := CleanValue(s).value; v != "" && !IsJsSpace(v[0]) && !IsJsSpace(v[|v| - 1])
  {
    if CleanValue(s).Some? {
      TrimmedEnds(s, CleanValue(s).value);
    }
  }

  lemma TrimmedEnds(s: string, v: string)
    requires v == Trim(s) && v != ""
    ensures !IsJsSpace(v[0]) && !IsJsSpace(v[|v| - 1])
  {
  }

  /** Reading a cleaned value back (`null` as `''`) and cleaning it again
      gives the same value. */
  lemma CleanValueIdempotent(s: string)
    ensures CleanValue(if CleanValue(s).Some? then CleanValue(s).value else "") == CleanValue(s)
  {
    TrimIdempotent(s);
    assert Trim("") == "";
  }

  /** The cleaned-up form sent on save: each text trimmed, and `null` where
      trimming leaves nothing; the same fields as the form. */
  function CleanForm(f: Form): (c: map<string, Option<string>>)
    ensures c.Keys == f.Keys
    ensures forall k :: k in f ==> c[k] == CleanValue(f[k])
  {
    map k | k in f :: CleanValue(f[k])
  }

  /** The form a cleaned-up record reads back as, `null` read as `''`. */
  function Uncleaned(c: map<string, Option<string>>): (f: Form)
    ensures f.Keys == c.Keys
    ensures forall k :: k in c ==> f[k] == if c[k].Some? then c[k].value else ""
  {
    map k | k in c :: if c[k].Some? then c[k].value else ""
  }

  /** Two maps with the same keys and the same value at each key are equal. */
  lemma MapExt<K, V>(a: map<K, V>, b: map<K, V>)
    requires a.Keys == b.Keys && forall k :: k in a ==> a[k] == b[k]
    ensures a == b
  {
  }

  /** Cleaning is idempotent: cleaning what a cleaned record reads back as
      gives the same record. */
  lemma CleanFormIdempotent(f: Form)
    ensures CleanForm(Uncleaned(CleanForm(f))) == CleanForm(f)
  {
    var c := CleanForm(f);
    var g := Uncleaned(c);
    var h := CleanForm(g);
    forall k | k in h ensures h[k] == c[k] {
      CleanValueIdempotent(f[k]);
    }
    MapExt(h, c);
  }

  /** The profile form after loading and cleaning: the fields the profile
      lacks, or holds blank, are sent as `null`. */
  lemma InitThenCleanNullsMissing(name: string, profile: ProfileFields, k: string)
    requires k in ProfileKeys
    requires k !in profile || profile[k].None? || profile[k] == Some("")
    ensures CleanForm(InitForm(name, profile))[k] == None
  {
    var f := InitForm(name, profile);
    assert f[k] == "";
    CleanValueShape("");
  }

  // ---------------------------------------------------------------------
  // Edit mode and saving

  /** The page's editing flag and error text after a save attempt: a
      successful save leaves edit mode and keeps the error text; a failed one
      stays in edit mode with "Failed to update profile". */
  function AfterSave(isEditing: bool, error: string, saved: bool): (r: (bool, string))
    ensures saved ==> !r.0 && r.1 == error
    ensures !saved ==> r.0 == isEditing && r.1 == "Failed to update profile"
  {
    if saved then (false, error) else (isEditing, "Failed to update profile")
  }

  // ---------------------------------------------------------------------
  // Address line

  /** How a template literal writes a possibly `null` field. */
  function TemplateText(v: Option<string>): string
  {
    if v.Some? then v.value else "null"
  }

  /** The address line of the read-only view: "address, city, state,
      country" when the address is non-empty, "Not provided" otherwise. */
  function AddressLine(address: Option<string>, city: Option<string>, state: Option<string>, country: Option<string>): (r: string)
    ensures (address.None? || address == Some("")) ==> r == "Not provided"
    ensures address.Some? && address.value != "" ==> address.value <= r && |r| > |address.value|
  {
    if address.Some? && address.value != "" then
      address.value + ", " + TemplateText(city) + ", " + TemplateText(state) + ", " + TemplateText(country)
    else "Not provided"
  }

  /** With a non-empty address the line is the four texts joined by ", ",
      with a missing city, state or country written as "null". */
  lemma AddressLineJoins(address: string, city: Option<string>, state: Option<string>, country: Option<string>)
    requires address != ""
    ensures AddressLine(Some(address), city, state, country)
      == Join([address, TemplateText(city), TemplateText(state), TemplateText(country)], ", ")
  {
    JoinFour(address, TemplateText(city), TemplateText(state), TemplateText(country), ", ");
  }
}
