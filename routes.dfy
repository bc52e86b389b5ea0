/** The HTTP handlers of server/routes.ts over a `ProfileStore`: each handler
    takes the request's parameters and body as values, works on the store,
    and gives the status code and the body it would send. A thrown error that
    the handler's `catch` turns into a status is a status here. */
module Routes {
  import opened Wrappers
  import opened Text
  import opened Schema
  import opened Storage
  import Slug

  /** What a handler sends back. */
  datatype Body =
    | ProfileBody(profile: Profile)
    | PageBody(page: ProfilePage)
    | Invalid(fields: set<string>)
    | Message(text: string)

  datatype Response = Response(status: int, body: Body)

  // ------------------------------------------------------------ query strings

  /** `parseInt(param) || d`: the parsed number, or the default `d` when the
      parameter is absent, not a number (`NaN`) or zero. A negative number is
      kept. */
  function QueryInt(param: Option<string>, d: int): (n: int)
    ensures n == d || (param.Some? && ParseInt(param.value) == Some(n) && n != 0)
    ensures param.Some? && ParseInt(param.value).Some? && ParseInt(param.value).value != 0 ==>
      n == ParseInt(param.value).value
    ensures d != 0 ==> n != 0
  {
    if param.None? then d
    else match ParseInt(param.value)
      case None => d
      case Some(v) => if v == 0 then d else v
  }

  /** A page or limit that the client writes with `String` is read back as
      written, except 0, which falls back to the default. */
  lemma QueryIntReadsBack(n: int, d: int)
    ensures QueryInt(Some(IntToString(n)), d) == (if n == 0 then d else n)
  {
    ParseIntOfIntToString(n);
  }

  /** `parseInt(req.query.page) || 1`. */
  function PageParam(query: map<string, string>): (n: int)
    ensures n != 0
    ensures Lookup(query, "page").None? ==> n == 1
    ensures n == 1 || (Lookup(query, "page").Some? && ParseInt(Lookup(query, "page").value) == Some(n))
  {
    QueryInt(Lookup(query, "page"), 1)
  }

  /** `parseInt(req.query.limit) || 12`. */
  function LimitParam(query: map<string, string>): (n: int)
    ensures n != 0
    ensures Lookup(query, "limit").None? ==> n == 12
    ensures n == 12 || (Lookup(query, "limit").Some? && ParseInt(Lookup(query, "limit").value) == Some(n))
  {
    QueryInt(Lookup(query, "limit"), 12)
  }

  /** `GET /api/profiles?page&limit&search`: page defaults to 1 and limit to
      12. The listing fails (500) exactly when the page or the limit read is
      negative; otherwise it is the store's page for those values. */
  function ListProfiles(store: ProfileStore, query: map<string, string>): (resp: Response)
    reads store
    ensures resp.status == 500 <==> PageParam(query) < 0 || LimitParam(query) < 0
    ensures resp.status != 500 ==> resp.status == 200 && PageParam(query) >= 1 && LimitParam(query) >= 1
    ensures var r := store.GetAllProfiles(PageParam(query), LimitParam(query), Lookup(query, "search"));
      r.Success? ==> resp.body == PageBody(r.value)
  {
    var page := PageParam(query);
    var limit := LimitParam(query);
    var r := store.GetAllProfiles(page, limit, Lookup(query, "search"));
    ListingRefused(page, limit);
    assert r.Failure? <==> page < 0 || limit < 0;
    if r.Failure? then Response(500, Message("Failed to fetch profiles"))
    else Response(200, PageBody(r.value))
  }

  /** With both values defaulted away from 0, the database refuses the
      listing exactly when one of them is negative. */
  lemma ListingRefused(page: int, limit: int)
    requires page != 0 && limit != 0
    ensures limit < 0 || (page - 1) * limit < 0 <==> page < 0 || limit < 0
  {
    if limit > 0 {
      if page >= 1 {
        assert (page - 1) * limit >= 0;
      } else {
        assert (page - 1) * limit <= -limit;
      }
    }
  }

  /** `GET /api/profiles/:slug`: the profile with that slug, or 404. */
  function GetBySlug(store: ProfileStore, slug: string): (resp: Response)
    reads store
    ensures resp.status == 404 <==> forall j :: 0 <= j < |store.rows| ==> store.rows[j].slug != slug
    ensures resp.status != 404 ==>
      resp.status == 200 && resp.body.ProfileBody? && resp.body.profile in store.rows
      && resp.body.profile.slug == slug
  {
    match store.GetProfileBySlug(slug)
    case None => Response(404, Message("Profile not found"))
    case Some(p) => Response(200, ProfileBody(p))
  }

  // --------------------------------------------------------------- slug probe

  /** The `k`-th slug the probe tries: the base, then `base-1`, `base-2`, ... */
  function Candidate(base: string, k: nat): string {
    if k == 0 then base else base + "-" + NatToString(k)
  }

  ghost predicate SlugTaken(rows: seq<Profile>, slug: string) {
    exists j :: 0 <= j < |rows| && rows[j].slug == slug
  }

  /** `slug` is the first candidate for `base` that no row has. */
  ghost predicate FirstFreeCandidate(rows: seq<Profile>, base: string, slug: string) {
    exists k: nat ::
      && slug == Candidate(base, k)
      && !SlugTaken(rows, slug)
      && (forall j: nat :: j < k ==> SlugTaken(rows, Candidate(base, j)))
  }

  /** There is only one first free candidate, and it is at most the
      `|rows|`-th: the probe ends after at most `|rows| + 1` lookups. */
  lemma FirstFreeCandidateUnique(rows: seq<Profile>, base: string, s1: string, s2: string)
    requires FirstFreeCandidate(rows, base, s1) && FirstFreeCandidate(rows, base, s2)
    ensures s1 == s2
    ensures exists k: nat :: k <= |rows| && s1 == Candidate(base, k)
  {
    var k1: nat :| s1 == Candidate(base, k1) && !SlugTaken(rows, s1)
      && forall j: nat :: j < k1 ==> SlugTaken(rows, Candidate(base, j));
    var k2: nat :| s2 == Candidate(base, k2) && !SlugTaken(rows, s2)
      && forall j: nat :: j < k2 ==> SlugTaken(rows, Candidate(base, j));
    TakenCandidatesBound(rows, base, k1);
  }

  /** Different counters give different candidates. */
  lemma CandidateInjective(base: string, a: nat, b: nat)
    requires Candidate(base, a) == Candidate(base, b)
    ensures a == b
  {
    if a != 0 && b != 0 {
      var n := |base| + 1;
      assert Candidate(base, a)[n..] == NatToString(a);
      assert Candidate(base, b)[n..] == NatToString(b);
      NatToStringInjective(a, b);
    }
  }

  /** The first `n` candidates. */
  ghost function Candidates(base: string, n: nat): (c: set<string>)
    ensures |c| == n
    ensures forall s :: s in c <==> exists j: nat :: j < n && s == Candidate(base, j)
  {
    if n == 0 then {}
    else
      var c := Candidates(base, n - 1);
      assert Candidate(base, n - 1) !in c by {
        if Candidate(base, n - 1) in c {
          var j: nat :| j < n - 1 && Candidate(base, n - 1) == Candidate(base, j);
          CandidateInjective(base, n - 1, j);
        }
      }
      c + {Candidate(base, n - 1)}
  }

  /** The slugs in use: no more of them than there are rows. */
  ghost function SlugsOf(rows: seq<Profile>): (s: set<string>)
    ensures |s| <= |rows|
    ensures forall x :: x in s <==> SlugTaken(rows, x)
  {
    if rows == [] then {}
    else
      var rest := SlugsOf(rows[1..]);
      assert forall x :: SlugTaken(rows, x) <==> x == rows[0].slug || SlugTaken(rows[1..], x) by {
        forall x ensures SlugTaken(rows, x) ==> x == rows[0].slug || SlugTaken(rows[1..], x) {
          if SlugTaken(rows, x) && x != rows[0].slug {
            var j :| 0 <= j < |rows| && rows[j].slug == x;
            assert rows[1..][j - 1].slug == x;
          }
        }
        forall x ensures SlugTaken(rows[1..], x) ==> SlugTaken(rows, x) {
          if SlugTaken(rows[1..], x) {
            var j :| 0 <= j < |rows[1..]| && rows[1..][j].slug == x;
            assert rows[j + 1].slug == x;
          }
        }
      }
      rest + {rows[0].slug}
  }

  lemma SubsetCardinality(c: set<string>, s: set<string>)
    requires c <= s
    ensures |c| <= |s|
  {
    assert s == c + (s - c);
    assert c * (s - c) == {};
  }

  /** If the first `n` candidates are all taken, there are at least `n` rows:
      the probe cannot run longer than the table is large. */
  lemma TakenCandidatesBound(rows: seq<Profile>, base: string, n: nat)
    requires forall j: nat :: j < n ==> SlugTaken(rows, Candidate(base, j))
    ensures n <= |rows|
  {
    var c := Candidates(base, n);
    var s := SlugsOf(rows);
    forall x | x in c ensures x in s {
      var j: nat :| j < n && x == Candidate(base, j);
    }
    SubsetCardinality(c, s);
  }

  /** The loop of the create handler: try `base`, then `base-1`, `base-2`, ...
      until a slug no row has. The result is the first free candidate, and it
      is found after at most one probe more than there are rows. */
  method ProbeSlug(store: ProfileStore, base: string) returns (slug: string)
    ensures FirstFreeCandidate(store.rows, base, slug)
  {
    slug := base;
    var counter: nat := 1;
    while store.GetProfileBySlug(slug).Some?
      invariant slug == Candidate(base, counter - 1)
      invariant forall j: nat :: j < counter - 1 ==> SlugTaken(store.rows, Candidate(base, j))
      invariant counter - 1 <= |store.rows|
      decreases |store.rows| - (counter - 1)
    {
      TakenCandidatesBound(store.rows, base, counter);
      slug := base + "-" + NatToString(counter);
      counter := counter + 1;
    }
    assert !SlugTaken(store.rows, Candidate(base, counter - 1));
  }

  // ------------------------------------------------------------------ create

  /** The request body as the create handler completes it: the uploaded file's
      path, the status `Pending` and the probed slug. */
  function Completed(body: map<string, string>, upload: Option<string>, slug: string): (data: map<string, string>)
    ensures forall f :: f in InsertKeys && f != "profilePhoto" && f != "slug" ==> Lookup(data, f) == Lookup(body, f)
    ensures Lookup(data, "slug") == Some(slug) && Lookup(data, "status") == Some("Pending")
    ensures Lookup(data, "profilePhoto") == PhotoOf(body, upload)
  {
    var withPhoto := if upload.Some? then body["profilePhoto" := "/uploads/" + upload.value] else body;
    withPhoto["status" := "Pending"]["slug" := slug]
  }

  /** The photo a create or update records: the uploaded file when there is
      one, else whatever the body says. */
  function PhotoOf(body: map<string, string>, upload: Option<string>): Option<string> {
    if upload.Some? then Some("/uploads/" + upload.value) else Lookup(body, "profilePhoto")
  }

  /** The fields a create request with a `name` fails validation on: the
      handler itself always supplies `slug`. */
  function CreateIssues(body: map<string, string>): set<string> {
    (set f | f in ["email", "profession"] && f !in body)
    + (if CheckAge(AgeFromText(Lookup(body, "age"))) == BadAge then {"age"} else {})
  }

  /** The accepted age of a request body, if any. */
  function AgeOf(body: map<string, string>): Option<int> {
    match CheckAge(AgeFromText(Lookup(body, "age")))
    case Age(years) => Some(years)
    case _ => None
  }

  /** An accepted completed body carries the request's fields, the photo and
      the probed slug. */
  lemma CompletedFields(body: map<string, string>, upload: Option<string>, slug: string)
    requires "name" in body && Validate(Completed(body, upload, slug)).Success?
    ensures "email" in body && "profession" in body
    ensures var p := Validate(Completed(body, upload, slug)).value;
      && p.name == body["name"] && p.email == body["email"]
      && p.profession == body["profession"] && p.slug == slug
      && p.profilePhoto == PhotoOf(body, upload) && p.age == AgeOf(body)
  {
    var data := Completed(body, upload, slug);
    SameFields(data, body);
  }

  /** Validation reads a body only through the schema's keys. */
  lemma SameFields(data: map<string, string>, body: map<string, string>)
    requires Validate(data).Success?
    requires Lookup(data, "name") == Lookup(body, "name") && Lookup(data, "email") == Lookup(body, "email")
    requires Lookup(data, "profession") == Lookup(body, "profession") && Lookup(data, "age") == Lookup(body, "age")
    ensures "name" in body && "email" in body && "profession" in body && "slug" in data
    ensures var p := Validate(data).value;
      && p.name == body["name"] && p.email == body["email"] && p.profession == body["profession"]
      && p.slug == data["slug"] && p.profilePhoto == Lookup(data, "profilePhoto") && p.age == AgeOf(body)
  {
    assert forall f :: f in RequiredFields ==> f in data;
  }

  lemma CompletedIssues(body: map<string, string>, upload: Option<string>, slug: string)
    requires "name" in body
    ensures Issues(Completed(body, upload, slug)) == CreateIssues(body)
  {
    var data := Completed(body, upload, slug);
    assert Lookup(data, "name").Some? && Lookup(data, "slug").Some?;
    assert Lookup(data, "email") == Lookup(body, "email");
    assert Lookup(data, "profession") == Lookup(body, "profession");
    assert Lookup(data, "age") == Lookup(body, "age");
    assert (set f | f in RequiredFields && f !in data) == (set f | f in ["email", "profession"] && f !in body);
  }

  ghost predicate EmailTaken(rows: seq<Profile>, email: string) {
    exists j :: 0 <= j < |rows| && rows[j].email == email
  }

  /** With its email and its slug free, a new row clashes with the stored ones
      exactly when its id is taken. */
  lemma ClashesOnlyOnId(rows: seq<Profile>, id: string, email: string, slug: string)
    requires !EmailTaken(rows, email) && !SlugTaken(rows, slug)
    ensures Clashes(rows, id, email, slug) <==> exists j :: 0 <= j < |rows| && rows[j].id == id
  {
  }

  lemma FirstFreeCandidateIsFree(rows: seq<Profile>, base: string, slug: string)
    requires FirstFreeCandidate(rows, base, slug)
    ensures !SlugTaken(rows, slug)
  {
  }

  /** `POST /api/profiles`. `upload` is the stored file name of an accepted
      image, `id` and `now` what the database assigns.
      - no `name`: `generateSlug` throws before validation, 500;
      - a missing required field or a rejected age: 400, naming the fields;
      - an email already in use: 400;
      - any other refusal of the insert (a taken id): 500;
      - otherwise 201 with the new row, whose slug is the first free
        candidate for the name's slug.
      Only a 201 changes the store, and then by appending that one row. */
  method CreateProfileRoute(store: ProfileStore, body: map<string, string>, upload: Option<string>, id: string, now: int)
    returns (resp: Response)
    requires store.Valid()
    modifies store
    ensures store.Valid()
    ensures resp.status in {201, 400, 500}
    ensures resp.status != 201 ==> store.rows == old(store.rows)
    ensures "name" !in body ==> resp.status == 500
    ensures "name" in body ==> (resp.body.Invalid? <==> CreateIssues(body) != {})
    ensures resp.body.Invalid? ==> resp == Response(400, Invalid(CreateIssues(body)))
    ensures "name" in body && "email" in body && CreateIssues(body) == {} && EmailTaken(old(store.rows), body["email"]) ==>
      resp == Response(400, Message("Profile with this email already exists"))
    ensures resp.status == 201 ==> "name" in body && "email" in body && "profession" in body
    ensures resp.status == 201 ==>
      && resp.body.ProfileBody?
      && var p := resp.body.profile;
      && store.rows == old(store.rows) + [p]
      && p.id == id && p.createdAt == now
      && p.name == body["name"] && p.email == body["email"] && p.profession == body["profession"]
      && FirstFreeCandidate(old(store.rows), Slug.GenerateSlug(body["name"]), p.slug)
      && p.profilePhoto == PhotoOf(body, upload) && p.age == AgeOf(body)
    ensures "name" in body && "email" in body && CreateIssues(body) == {} && !EmailTaken(old(store.rows), body["email"]) ==>
      if old(store.GetProfile(id)).Some? then resp == Response(500, Message("Failed to create profile"))
      else resp.status == 201
  {
    if "name" !in body {
      return Response(500, Message("Failed to create profile"));
    }
    var slug := ProbeSlug(store, Slug.GenerateSlug(body["name"]));
    var v := Validate(Completed(body, upload, slug));
    CompletedIssues(body, upload, slug);
    if v.Failure? {
      return Response(400, Invalid(v.error));
    }
    CompletedFields(body, upload, slug);
    if store.GetProfileByEmail(v.value.email).Some? {
      return Response(400, Message("Profile with this email already exists"));
    }
    FirstFreeCandidateIsFree(store.rows, Slug.GenerateSlug(body["name"]), slug);
    ClashesOnlyOnId(store.rows, id, v.value.email, v.value.slug);
    var r := store.CreateProfile(v.value, id, now);
    if r.Failure? {
      return Response(500, Message("Failed to create profile"));
    }
    resp := Response(201, ProfileBody(r.value));
  }

  // ------------------------------------------------------------ update, delete

  const Int4Min: int := -0x8000_0000
  const Int4Max: int := 0x7FFF_FFFF

  /** PostgreSQL's text input for an `integer` column: an optional sign and
      decimal digits with white space around them, within 32 bits; anything
      else makes the statement fail. */
  function PgInteger(s: string): (r: Option<int>)
    ensures r.Some? ==> Int4Min <= r.value <= Int4Max
  {
    match ParseDecimal(Trim(s))
    case Some(n) => if Int4Min <= n <= Int4Max then Some(n) else None
    case None => None
  }

  /** The database reads back any 32-bit integer written with `String`. */
  lemma PgIntegerOfIntToString(n: int)
    requires Int4Min <= n <= Int4Max
    ensures PgInteger(IntToString(n)) == Some(n)
  {
    IntToStringNoSpace(n);
    ParseDecimalOfIntToString(n);
  }

  /** A nullable column the body may set. */
  function SetIfGiven(body: map<string, string>, key: string): Option<Option<string>> {
    if key in body then Some(Some(body[key])) else None
  }

  /** `db.update(profiles).set(body)`: every column the body names is set to
      the body's text; the text of `age` must be an integer the database
      accepts. Keys that are not columns are not set. */
  function PatchFromBody(body: map<string, string>): (r: Result<Patch, DbError>)
    ensures r.Failure? <==> "age" in body && PgInteger(body["age"]).None?
    ensures r.Failure? ==> r.error == InvalidInteger
    ensures r.Success? ==>
      && r.value.name == Lookup(body, "name") && r.value.email == Lookup(body, "email")
      && r.value.profession == Lookup(body, "profession") && r.value.slug == Lookup(body, "slug")
      && (r.value.age.Some? <==> "age" in body)
      && ("age" in body ==> r.value.age == Some(PgInteger(body["age"])))
      && r.value.profilePhoto == SetIfGiven(body, "profilePhoto")
    ensures r.Success? && IsEmptyPatch(r.value) <==> forall f :: f in InsertKeys ==> f !in body
  {
    var age: Option<Option<int>> :=
      if "age" in body then Some(PgInteger(body["age"])) else None;
    if age.Some? && age.value.None? then Failure(InvalidInteger)
    else
      Success(Patch(
        name := Lookup(body, "name"),
        email := Lookup(body, "email"),
        phone := SetIfGiven(body, "phone"),
        address := SetIfGiven(body, "address"),
        age := age,
        profession := Lookup(body, "profession"),
        experience := SetIfGiven(body, "experience"),
        skills := SetIfGiven(body, "skills"),
        education := SetIfGiven(body, "education"),
        workExperience := SetIfGiven(body, "workExperience"),
        achievements := SetIfGiven(body, "achievements"),
        profilePhoto := SetIfGiven(body, "profilePhoto"),
        slug := Lookup(body, "slug")))
  }

  /** The body the update handler passes on: the uploaded file, when there is
      one, replaces `profilePhoto`. */
  function WithUpload(body: map<string, string>, upload: Option<string>): (data: map<string, string>)
    ensures Lookup(data, "profilePhoto") == PhotoOf(body, upload)
    ensures forall f :: f != "profilePhoto" ==> Lookup(data, f) == Lookup(body, f)
  {
    if upload.Some? then body["profilePhoto" := "/uploads/" + upload.value] else body
  }

  /** `PUT /api/profiles/:id`. A body that names no column, or an `age` the
      database cannot read, fails (500) whatever the id; an unknown id gives
      404; an update that would duplicate an email or a slug fails (500);
      otherwise the row with that id, and only it, is updated and sent back. */
  method UpdateProfileRoute(store: ProfileStore, id: string, body: map<string, string>, upload: Option<string>)
    returns (resp: Response)
    requires store.Valid()
    modifies store
    ensures store.Valid()
    ensures resp.status in {200, 404, 500}
    ensures resp.status != 200 ==> store.rows == old(store.rows)
    ensures PatchFromBody(WithUpload(body, upload)).Failure? ==> resp.status == 500
    ensures var q := PatchFromBody(WithUpload(body, upload));
      q.Success? && IsEmptyPatch(q.value) ==> resp.status == 500
    ensures var q := PatchFromBody(WithUpload(body, upload));
      q.Success? && !IsEmptyPatch(q.value) && old(store.GetProfile(id)).None? ==> resp.status == 404
    ensures resp.status == 200 ==>
      var q := PatchFromBody(WithUpload(body, upload));
      var i := FindIndex(old(store.rows), IdColumn, id);
      && q.Success? && 0 <= i < |old(store.rows)|
      && resp.body == ProfileBody(Apply(old(store.rows)[i], q.value))
      && store.rows == old(store.rows)[i := Apply(old(store.rows)[i], q.value)]
    ensures var q := PatchFromBody(WithUpload(body, upload));
      var i := FindIndex(old(store.rows), IdColumn, id);
      q.Success? && !IsEmptyPatch(q.value) && i >= 0 ==>
        if UpdateClashes(old(store.rows), i, Apply(old(store.rows)[i], q.value)) then resp.status == 500
        else resp.status == 200
  {
    var q := PatchFromBody(WithUpload(body, upload));
    if q.Failure? {
      return Response(500, Message("Failed to update profile"));
    }
    var r := store.UpdateProfile(id, q.value);
    if r.Failure? {
      return Response(500, Message("Failed to update profile"));
    }
    if r.value.None? {
      return Response(404, Message("Profile not found"));
    }
    resp := Response(200, ProfileBody(r.value.value));
  }

  /** A body holding only keys that are not columns, such as the `status` an
      approval or a rejection sends, makes an update that names no column: it
      fails whatever the id. */
  lemma StatusOnlyUpdateIsEmpty(status: string)
    ensures PatchFromBody(WithUpload(map["status" := status], None)).Success?
    ensures IsEmptyPatch(PatchFromBody(WithUpload(map["status" := status], None)).value)
  {
    var body := map["status" := status];
    assert forall f :: f in InsertKeys ==> f !in body;
  }

  /** `DELETE /api/profiles/:id`: 404 when no row has the id, else the row is
      removed and every other row stays. */
  method DeleteProfileRoute(store: ProfileStore, id: string) returns (resp: Response)
    requires store.Valid()
    modifies store
    ensures store.Valid()
    ensures resp.status == 404 <==> old(store.GetProfile(id)).None?
    ensures resp.status != 404 ==> resp == Response(200, Message("Profile deleted successfully"))
    ensures store.rows == Without(old(store.rows), id)
    ensures store.GetProfile(id).None?
  {
    var deleted := store.DeleteProfile(id);
    if !deleted {
      return Response(404, Message("Profile not found"));
    }
    resp := Response(200, Message("Profile deleted successfully"));
  }
}
