/** The create-profile page (client/src/pages/create-profile.tsx): the form's
    own validation, the `FormData` the submission sends, and the photo the
    page keeps between choices. */
module CreateForm {
  import opened Wrappers
  import opened Text
  import opened Schema
  import Routes

  /** The form's fields as the page holds them. Text fields start as "" and
      stay strings; the age field holds what its `onChange` stores. */
  datatype FormInput = FormInput(
    name: string,
    email: string,
    phone: string,
    address: string,
    age: AgeInput,
    profession: string,
    experience: string,
    skills: string,
    education: string,
    workExperience: string,
    achievements: string)

  /** The age field's `onChange`: an empty input clears the value, anything
      else is read with `parseInt` (which may give `NaN`). */
  function AgeField(text: string): (a: AgeInput)
    ensures a == AgeUndefined <==> text == ""
    ensures a != AgeEmpty
    ensures text != "" ==> (a.AgeNumber? <==> ParseInt(text).Some?)
    ensures a.AgeNumber? ==> ParseInt(text) == Some(a.n)
  {
    if text == "" then AgeUndefined
    else match ParseInt(text)
      case Some(n) => AgeNumber(n)
      case None => AgeNaN
  }

  /** What `profileSchema` hands to the submission: the text fields as typed
      and an accepted age, if any. */
  datatype FormData = FormData(
    name: string,
    email: string,
    phone: string,
    address: string,
    age: Option<int>,
    profession: string,
    experience: string,
    skills: string,
    education: string,
    workExperience: string,
    achievements: string)

  /** The fields `profileSchema` rejects. `isEmail` stands for Zod's email
      check. */
  function FormIssues(f: FormInput, isEmail: string -> bool): set<string> {
    (if |f.name| < 2 then {"name"} else {})
    + (if !isEmail(f.email) then {"email"} else {})
    + (if CheckAge(f.age) == BadAge then {"age"} else {})
    + (if |f.profession| < 2 then {"profession"} else {})
  }

  /** `profileSchema.parse`: a name and a profession of at least two
      characters, an email `isEmail` accepts, and an age that is absent or in
      18..100. */
  function ValidateForm(f: FormInput, isEmail: string -> bool): (r: Result<FormData, set<string>>)
    ensures r.Failure? <==> FormIssues(f, isEmail) != {}
    ensures r.Failure? ==> r.error == FormIssues(f, isEmail)
    ensures r.Success? ==>
      && |r.value.name| >= 2 && |r.value.profession| >= 2 && isEmail(r.value.email)
      && r.value.name == f.name && r.value.email == f.email && r.value.profession == f.profession
      && (r.value.age.None? <==> f.age == AgeUndefined || f.age == AgeEmpty)
      && (r.value.age.Some? ==> f.age == AgeNumber(r.value.age.value) && 18 <= r.value.age.value <= 100)
  {
    var issues := FormIssues(f, isEmail);
    if issues != {} then Failure(issues)
    else
      var age := CheckAge(f.age);
      Success(FormData(f.name, f.email, f.phone, f.address,
                       if age.Age? then Some(age.years) else None,
                       f.profession, f.experience, f.skills, f.education,
                       f.workExperience, f.achievements))
  }

  /** The form rejects what was typed into the age input exactly when it is
      not empty and `parseInt` reads no number from it, or a number outside
      18..100. */
  lemma AgeFieldIssue(f: FormInput, text: string, isEmail: string -> bool)
    requires f.age == AgeField(text)
    ensures "age" in FormIssues(f, isEmail) <==>
      text != "" && (ParseInt(text).None? || !(18 <= ParseInt(text).value <= 100))
  { }

  /** A form that passes holds the age typed into the input, read by
      `parseInt`, or none when the input was left empty. */
  lemma AgeFieldValidated(f: FormInput, text: string, isEmail: string -> bool)
    requires f.age == AgeField(text)
    requires ValidateForm(f, isEmail).Success?
    ensures ValidateForm(f, isEmail).value.age.None? <==> text == ""
    ensures text != "" ==> ValidateForm(f, isEmail).value.age == ParseInt(text)
  { }

  /** Typing the decimal digits of a number into the age input stores that
      number. */
  lemma AgeFieldOfIntToString(n: int)
    ensures AgeField(IntToString(n)) == AgeNumber(n)
  {
    ParseIntOfIntToString(n);
  }

  /** A field value as `Object.entries` sees it. */
  datatype FormValue = Undefined | Text(s: string) | Number(n: int)

  /** The entries of the validated data, in the schema's key order. */
  function Entries(d: FormData): (e: seq<(string, FormValue)>)
    ensures |e| == 11
  {
    [ ("name", Text(d.name)), ("email", Text(d.email)), ("phone", Text(d.phone)),
      ("address", Text(d.address)),
      ("age", if d.age.Some? then Number(d.age.value) else Undefined),
      ("profession", Text(d.profession)), ("experience", Text(d.experience)),
      ("skills", Text(d.skills)), ("education", Text(d.education)),
      ("workExperience", Text(d.workExperience)), ("achievements", Text(d.achievements)) ]
  }

  /** `value !== undefined && value !== ""`. */
  predicate Kept(v: FormValue) {
    v != Undefined && v != Text("")
  }

  /** `value.toString()`. */
  function ToText(v: FormValue): string
    requires v != Undefined
  {
    match v
    case Text(s) => s
    case Number(n) => IntToString(n)
  }

  /** A photo the user picked: its name and size in bytes. */
  datatype PhotoFile = PhotoFile(name: string, size: nat)

  /** One part of the submitted multipart body. */
  datatype Part = TextPart(text: string) | FilePart(file: PhotoFile)

  /** The text parts the `forEach` appends for `entries`, in order. */
  function Submitted(entries: seq<(string, FormValue)>): (parts: seq<(string, Part)>)
    ensures |parts| <= |entries|
    ensures forall j :: 0 <= j < |parts| ==> parts[j].1.TextPart? && parts[j].1.text != ""
  {
    if entries == [] then []
    else
      var last := entries[|entries| - 1];
      Submitted(entries[..|entries| - 1])
        + (if Kept(last.1) then [(last.0, TextPart(ToText(last.1)))] else [])
  }

  /** The photo part, present only when a photo has been selected. */
  function PhotoPart(photo: Option<PhotoFile>): seq<(string, Part)> {
    if photo.Some? then [("profilePhoto", FilePart(photo.value))] else []
  }

  /** `mutationFn`'s construction of the `FormData`: every entry whose value is
      neither undefined nor "" as its string form, in order, then the selected
      photo, if any. */
  method BuildFormData(entries: seq<(string, FormValue)>, photo: Option<PhotoFile>)
    returns (formData: seq<(string, Part)>)
    ensures formData == Submitted(entries) + PhotoPart(photo)
  {
    formData := [];
    var i := 0;
    while i < |entries|
      invariant 0 <= i <= |entries|
      invariant formData == Submitted(entries[..i])
    {
      var (key, value) := entries[i];
      assert entries[..i + 1][..i] == entries[..i];
      if Kept(value) {
        formData := formData + [(key, TextPart(ToText(value)))];
      }
      i := i + 1;
    }
    assert entries[..i] == entries;
    if photo.Some? {
      formData := formData + [("profilePhoto", FilePart(photo.value))];
    }
  }

  /** A kept entry is submitted under its key, as its string form. */
  lemma {:induction false} SubmittedHasKept(entries: seq<(string, FormValue)>, i: int)
    requires 0 <= i < |entries| && Kept(entries[i].1)
    ensures (entries[i].0, TextPart(ToText(entries[i].1))) in Submitted(entries)
  {
    var init := entries[..|entries| - 1];
    if i < |entries| - 1 {
      assert init[i] == entries[i];
      SubmittedHasKept(init, i);
    }
  }

  /** Every submitted part comes from a kept entry with that key and value. */
  lemma {:induction false} SubmittedOnlyKept(entries: seq<(string, FormValue)>, key: string, t: string)
    requires (key, TextPart(t)) in Submitted(entries)
    ensures exists i ::
      0 <= i < |entries| && entries[i].0 == key && Kept(entries[i].1) && t == ToText(entries[i].1)
  {
    var init := entries[..|entries| - 1];
    var last := entries[|entries| - 1];
    if (key, TextPart(t)) in Submitted(init) {
      SubmittedOnlyKept(init, key, t);
      var i :| 0 <= i < |init| && init[i].0 == key && Kept(init[i].1) && t == ToText(init[i].1);
      assert entries[i] == init[i];
    } else {
      assert last.0 == key && Kept(last.1) && t == ToText(last.1);
    }
  }

  /** The request body the server reads from the text parts: each part sets
      its key, a later part overriding an earlier one. */
  function BodyOf(parts: seq<(string, Part)>): map<string, string> {
    if parts == [] then map[]
    else
      var init := BodyOf(parts[..|parts| - 1]);
      var last := parts[|parts| - 1];
      if last.1.TextPart? then init[last.0 := last.1.text] else init
  }

  lemma BodyOfAppend(parts: seq<(string, Part)>, key: string, t: string)
    ensures BodyOf(parts + [(key, TextPart(t))]) == BodyOf(parts)[key := t]
  {
    assert (parts + [(key, TextPart(t))])[..|parts|] == parts;
  }

  /** Only a key of some entry can be in the body. */
  lemma {:induction false} BodyKeys(entries: seq<(string, FormValue)>, key: string)
    requires key in BodyOf(Submitted(entries))
    ensures exists j :: 0 <= j < |entries| && entries[j].0 == key
  {
    var init := entries[..|entries| - 1];
    var last := entries[|entries| - 1];
    if Kept(last.1) {
      BodyOfAppend(Submitted(init), last.0, ToText(last.1));
    } else {
      assert Submitted(init) + [] == Submitted(init);
    }
    if key != last.0 {
      BodyKeys(init, key);
      var j :| 0 <= j < |init| && init[j].0 == key;
      assert entries[j] == init[j];
    }
  }

  /** With distinct keys, the body holds a key exactly when its entry is kept,
      and then its string form. */
  lemma {:induction false} BodyOfSubmitted(entries: seq<(string, FormValue)>, i: int)
    requires forall a, b :: 0 <= a < b < |entries| ==> entries[a].0 != entries[b].0
    requires 0 <= i < |entries|
    ensures Kept(entries[i].1) ==>
      Lookup(BodyOf(Submitted(entries)), entries[i].0) == Some(ToText(entries[i].1))
    ensures !Kept(entries[i].1) ==> entries[i].0 !in BodyOf(Submitted(entries))
  {
    var n := |entries|;
    var init := entries[..n - 1];
    var last := entries[n - 1];
    var body := BodyOf(Submitted(entries));
    if Kept(last.1) {
      BodyOfAppend(Submitted(init), last.0, ToText(last.1));
      assert body == BodyOf(Submitted(init))[last.0 := ToText(last.1)];
    } else {
      assert Submitted(init) + [] == Submitted(init);
      assert body == BodyOf(Submitted(init));
    }
    if i < n - 1 {
      assert init[i] == entries[i];
      BodyOfSubmitted(init, i);
    } else if !Kept(last.1) && last.0 in body {
      BodyKeys(init, last.0);
    }
  }

  lemma EntryKeysDistinct(d: FormData)
    ensures forall a, b :: 0 <= a < b < |Entries(d)| ==> Entries(d)[a].0 != Entries(d)[b].0
  {
  }

  /** A form the page accepts also passes the server's validation: name,
      email and profession are sent, and an accepted age is sent as a numeral
      the server reads back to the same age. (Any email check rejects "".) */
  lemma ClientAcceptedServerAccepts(f: FormInput, isEmail: string -> bool)
    requires !isEmail("")
    requires ValidateForm(f, isEmail).Success?
    ensures var body := BodyOf(Submitted(Entries(ValidateForm(f, isEmail).value)));
      && Lookup(body, "name") == Some(f.name)
      && Lookup(body, "email") == Some(f.email)
      && Lookup(body, "profession") == Some(f.profession)
      && Routes.CreateIssues(body) == {}
  {
    RequiredFieldsArrive(f, isEmail);
    AcceptedAgeArrives(f, isEmail);
  }

  /** Name, email and profession reach the server as typed. */
  lemma RequiredFieldsArrive(f: FormInput, isEmail: string -> bool)
    requires !isEmail("")
    requires ValidateForm(f, isEmail).Success?
    ensures var body := BodyOf(Submitted(Entries(ValidateForm(f, isEmail).value)));
      && Lookup(body, "name") == Some(f.name)
      && Lookup(body, "email") == Some(f.email)
      && Lookup(body, "profession") == Some(f.profession)
  {
    var d := ValidateForm(f, isEmail).value;
    var e := Entries(d);
    EntryKeysDistinct(d);
    assert e[0] == ("name", Text(d.name)) && d.name != "";
    BodyOfSubmitted(e, 0);
    assert e[1] == ("email", Text(d.email)) && d.email != "";
    BodyOfSubmitted(e, 1);
    assert e[5] == ("profession", Text(d.profession)) && d.profession != "";
    BodyOfSubmitted(e, 5);
  }

  /** An age the page accepts is one the server accepts. */
  lemma AcceptedAgeArrives(f: FormInput, isEmail: string -> bool)
    requires ValidateForm(f, isEmail).Success?
    ensures var body := BodyOf(Submitted(Entries(ValidateForm(f, isEmail).value)));
      CheckAge(AgeFromText(Lookup(body, "age"))) != BadAge
  {
    var d := ValidateForm(f, isEmail).value;
    var e := Entries(d);
    var body := BodyOf(Submitted(e));
    EntryKeysDistinct(d);
    assert e[4].0 == "age";
    BodyOfSubmitted(e, 4);
    if d.age.Some? {
      assert e[4].1 == Number(d.age.value);
      NumberOfIntToString(d.age.value);
      assert AgeFromText(Lookup(body, "age")) == AgeNumber(d.age.value);
    } else {
      assert e[4].1 == Undefined;
    }
  }

  // ------------------------------------------------------------------ photo

  /** 5 MiB: the largest photo the page takes. */
  const MaxPhotoBytes: nat := 5 * 1024 * 1024

  /** The page's `profilePhoto` state. */
  class PhotoPicker {
    var photo: Option<PhotoFile>

    /** A kept photo is never over the size limit. */
    ghost predicate Valid()
      reads this
    {
      photo.None? || photo.value.size <= MaxPhotoBytes
    }

    constructor ()
      ensures Valid() && photo == None
    {
      photo := None;
    }

    /** `handlePhotoChange`: no file changes nothing; a file over 5 MiB is
        refused and the previous photo kept; any other file becomes the
        photo. */
    method HandlePhotoChange(file: Option<PhotoFile>) returns (tooLarge: bool)
      requires Valid()
      modifies this
      ensures Valid()
      ensures tooLarge <==> file.Some? && file.value.size > MaxPhotoBytes
      ensures photo == (if file.Some? && !tooLarge then file else old(photo))
    {
      tooLarge := false;
      if file.Some? {
        if file.value.size > MaxPhotoBytes {
          tooLarge := true;
          return;
        }
        photo := file;
      }
    }
  }
}
