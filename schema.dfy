/** The `profiles` table and `insertProfileSchema` (shared/schema.ts): the
    stored record, the record a create may insert, and the server-side
    validation of a create request's fields. */
module Schema {
  import opened Wrappers
  import opened Text

  /** A row of `profiles`. Optional columns are `Option`s; `createdAt` is the
      insertion time as an integer timestamp. There is no `status` column. */
  datatype Profile = Profile(
    id: string,
    name: string,
    email: string,
    phone: Option<string>,
    address: Option<string>,
    age: Option<int>,
    profession: string,
    experience: Option<string>,
    skills: Option<string>,
    education: Option<string>,
    workExperience: Option<string>,
    achievements: Option<string>,
    profilePhoto: Option<string>,
    slug: string,
    createdAt: int)

  /** What `insertProfileSchema` produces: a row without `id` and `createdAt`,
      which the store assigns. */
  datatype InsertProfile = InsertProfile(
    name: string,
    email: string,
    phone: Option<string>,
    address: Option<string>,
    age: Option<int>,
    profession: string,
    experience: Option<string>,
    skills: Option<string>,
    education: Option<string>,
    workExperience: Option<string>,
    achievements: Option<string>,
    profilePhoto: Option<string>,
    slug: string)

  /** The columns of `profiles` in declaration order, which is also the key
      order of a row sent as JSON. */
  const Columns: seq<string> := [
    "id", "name", "email", "phone", "address", "age", "profession", "experience",
    "skills", "education", "workExperience", "achievements", "profilePhoto",
    "slug", "createdAt"]

  /** The `notNull` columns without a default: a create must supply them. */
  const RequiredFields: seq<string> := ["name", "email", "profession", "slug"]

  /** The nullable text columns: a create may leave them out. */
  const OptionalTextFields: seq<string> := [
    "phone", "address", "experience", "skills", "education", "workExperience",
    "achievements", "profilePhoto"]

  /** The keys `insertProfileSchema` reads; every other key of a request body
      is dropped. `id` and `createdAt` are omitted from the schema. */
  const InsertKeys: set<string> := set f | f in RequiredFields + OptionalTextFields + ["age"]

  /** An `age` value as the schema's preprocessing sees it. */
  datatype AgeInput = AgeUndefined | AgeEmpty | AgeNumber(n: int) | AgeNaN

  /** The outcome of the age rule: no age, an accepted age, or a rejection. */
  datatype AgeVerdict = NoAge | Age(years: int) | BadAge

  /** An `age` form field as a request body carries it: absent, or text that
      `Number` converts. */
  function AgeFromText(v: Option<string>): AgeInput {
    match v
    case None => AgeUndefined
    case Some(s) =>
      if s == "" then AgeEmpty
      else match Number(s)
        case Some(n) => AgeNumber(n)
        case None => AgeNaN
  }

  /** `z.preprocess(v => v === "" || v === undefined ? undefined : Number(v),
      z.number().min(18).max(100).optional())`: an empty or missing age is
      absent and accepted; a number is accepted exactly when it lies in
      18..100, bounds included; `NaN` is rejected. */
  function CheckAge(a: AgeInput): (v: AgeVerdict)
    ensures v == NoAge <==> a == AgeUndefined || a == AgeEmpty
    ensures v.Age? <==> a.AgeNumber? && 18 <= a.n <= 100
    ensures v.Age? ==> v.years == a.n
  {
    match a
    case AgeUndefined => NoAge
    case AgeEmpty => NoAge
    case AgeNumber(n) => if 18 <= n <= 100 then Age(n) else BadAge
    case AgeNaN => BadAge
  }

  function Lookup(body: map<string, string>, key: string): Option<string> {
    if key in body then Some(body[key]) else None
  }

  /** The fields a request body fails on. */
  function Issues(body: map<string, string>): set<string> {
    (set f | f in RequiredFields && f !in body)
    + (if CheckAge(AgeFromText(Lookup(body, "age"))) == BadAge then {"age"} else {})
  }

  /** `insertProfileSchema.parse(body)` for a request body whose values are all
      text (a multipart form). It fails, naming the offending fields, exactly
      when a required field is missing or the age is rejected; on success every
      required field is taken as given, every optional field is present exactly
      when the body has it, and nothing outside the schema's keys is read. */
  function Validate(body: map<string, string>): (r: Result<InsertProfile, set<string>>)
    ensures r.Failure? <==> Issues(body) != {}
    ensures r.Failure? ==> r.error == Issues(body)
    ensures r.Success? ==>
      && (forall f :: f in RequiredFields ==> f in body)
      && r.value.name == body["name"] && r.value.email == body["email"]
      && r.value.profession == body["profession"] && r.value.slug == body["slug"]
      && r.value.phone == Lookup(body, "phone") && r.value.address == Lookup(body, "address")
      && r.value.experience == Lookup(body, "experience") && r.value.skills == Lookup(body, "skills")
      && r.value.education == Lookup(body, "education")
      && r.value.workExperience == Lookup(body, "workExperience")
      && r.value.achievements == Lookup(body, "achievements")
      && r.value.profilePhoto == Lookup(body, "profilePhoto")
      && (r.value.age.Some? <==> CheckAge(AgeFromText(Lookup(body, "age"))).Age?)
      && (r.value.age.Some? ==>
            AgeFromText(Lookup(body, "age")) == AgeNumber(r.value.age.value)
            && 18 <= r.value.age.value <= 100)
  {
    var issues := Issues(body);
    if issues != {} then Failure(issues)
    else
      assert forall f :: f in RequiredFields && f !in body ==> f in issues;
      var age := CheckAge(AgeFromText(Lookup(body, "age")));
      Success(InsertProfile(
        name := body["name"],
        email := body["email"],
        phone := Lookup(body, "phone"),
        address := Lookup(body, "address"),
        age := if age.Age? then Some(age.years) else None,
        profession := body["profession"],
        experience := Lookup(body, "experience"),
        skills := Lookup(body, "skills"),
        education := Lookup(body, "education"),
        workExperience := Lookup(body, "workExperience"),
        achievements := Lookup(body, "achievements"),
        profilePhoto := Lookup(body, "profilePhoto"),
        slug := body["slug"]))
  }

  /** A key the schema does not read changes nothing: in particular `status`
      (there is no such column), `id` and `createdAt` (omitted from the schema)
      are never taken from a request. */
  lemma ValidateIgnoresOtherKeys(body: map<string, string>, key: string, value: string)
    requires key !in InsertKeys
    ensures Validate(body[key := value]) == Validate(body)
  {
    var b := body[key := value];
    assert forall f :: f in InsertKeys ==> Lookup(b, f) == Lookup(body, f);
    assert forall f :: f in RequiredFields ==> (f in b <==> f in body);
    assert Issues(b) == Issues(body);
  }

  /** The `status` the create route sets, and any `id` or `createdAt` a client
      sends, leave the validated record as it was. */
  lemma StatusIdCreatedAtDropped(body: map<string, string>, status: string, id: string, createdAt: string)
    ensures Validate(body["status" := status]) == Validate(body)
    ensures Validate(body["id" := id]) == Validate(body)
    ensures Validate(body["createdAt" := createdAt]) == Validate(body)
  {
    ValidateIgnoresOtherKeys(body, "status", status);
    ValidateIgnoresOtherKeys(body, "id", id);
    ValidateIgnoresOtherKeys(body, "createdAt", createdAt);
  }

  /** The row the store writes for an accepted insert. */
  function ToRow(p: InsertProfile, id: string, createdAt: int): (row: Profile)
  {
    Profile(id, p.name, p.email, p.phone, p.address, p.age, p.profession,
            p.experience, p.skills, p.education, p.workExperience,
            p.achievements, p.profilePhoto, p.slug, createdAt)
  }
}
