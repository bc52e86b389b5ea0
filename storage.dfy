/** `DatabaseStorage` (server/storage.ts) over an in-memory table: a class
    whose one field is the sequence of stored rows, in insertion order. The
    table's constraints (primary key `id`, unique `email`, unique `slug`) are
    the class invariant; a statement that would break one fails, as the
    database's would. */
module Storage {
  import opened Wrappers
  import opened Schema
  import Ordering
  import Ilike

  /** Why the database refuses a statement (each surfaces as a thrown error). */
  datatype DbError = UniqueViolation | NegativeLimit | NegativeOffset | NoColumnToSet | InvalidInteger

  /** What `getAllProfiles` returns: `{ profiles, total }`. */
  datatype ProfilePage = ProfilePage(profiles: seq<Profile>, total: nat)

  /** The columns a lookup can be keyed on. */
  datatype KeyColumn = IdColumn | SlugColumn | EmailColumn

  function KeyOf(p: Profile, c: KeyColumn): string {
    match c
    case IdColumn => p.id
    case SlugColumn => p.slug
    case EmailColumn => p.email
  }

  /** The table constraints: no two rows share an id, an email or a slug. */
  ghost predicate UniqueKeys(rows: seq<Profile>) {
    forall i, j :: 0 <= i < j < |rows| ==>
      rows[i].id != rows[j].id && rows[i].email != rows[j].email && rows[i].slug != rows[j].slug
  }

  /** The position of the first row whose `c` column equals `v`, or -1. */
  function FindIndex(rows: seq<Profile>, c: KeyColumn, v: string): (i: int)
    ensures -1 <= i < |rows|
    ensures i == -1 <==> forall j :: 0 <= j < |rows| ==> KeyOf(rows[j], c) != v
    ensures i >= 0 ==> KeyOf(rows[i], c) == v && forall j :: 0 <= j < i ==> KeyOf(rows[j], c) != v
  {
    if rows == [] then -1
    else if KeyOf(rows[0], c) == v then 0
    else
      var k := FindIndex(rows[1..], c, v);
      if k == -1 then -1 else k + 1
  }

  /** `select ... where c = v`, first row. */
  function Find(rows: seq<Profile>, c: KeyColumn, v: string): (r: Option<Profile>)
    ensures r.None? <==> forall j :: 0 <= j < |rows| ==> KeyOf(rows[j], c) != v
    ensures r.Some? ==> r.value in rows && KeyOf(r.value, c) == v
  {
    var i := FindIndex(rows, c, v);
    if i < 0 then None else Some(rows[i])
  }

  /** Under the table constraints, a lookup finds the one row that has the key. */
  lemma FindsTheRow(rows: seq<Profile>, c: KeyColumn, i: int)
    requires UniqueKeys(rows) && 0 <= i < |rows|
    ensures Find(rows, c, KeyOf(rows[i], c)) == Some(rows[i])
  {
    var k := FindIndex(rows, c, KeyOf(rows[i], c));
    assert k <= i;
  }

  /** Would a row with these keys clash with a stored one? */
  predicate Clashes(rows: seq<Profile>, id: string, email: string, slug: string) {
    exists j :: 0 <= j < |rows| && (rows[j].id == id || rows[j].email == email || rows[j].slug == slug)
  }

  /** A row whose keys clash with none of the stored ones can be appended
      under the table constraints, and every lookup by its keys finds it. */
  lemma AppendFindsTheRow(rows: seq<Profile>, row: Profile)
    requires UniqueKeys(rows) && !Clashes(rows, row.id, row.email, row.slug)
    ensures UniqueKeys(rows + [row])
    ensures Find(rows + [row], IdColumn, row.id) == Some(row)
    ensures Find(rows + [row], SlugColumn, row.slug) == Some(row)
    ensures Find(rows + [row], EmailColumn, row.email) == Some(row)
  {
    var all := rows + [row];
    forall i, j | 0 <= i < j < |all|
      ensures all[i].id != all[j].id && all[i].email != all[j].email && all[i].slug != all[j].slug
    {
      if j == |rows| {
        assert all[i] == rows[i];
      }
    }
    FindsTheRow(all, IdColumn, |rows|);
    FindsTheRow(all, SlugColumn, |rows|);
    FindsTheRow(all, EmailColumn, |rows|);
  }

  /** The rows whose id is not `id`, in order: what `delete ... where id = ?` leaves. */
  function Without(rows: seq<Profile>, id: string): (r: seq<Profile>)
    ensures |r| <= |rows|
    ensures forall p :: p in r <==> p in rows && p.id != id
    ensures (forall j :: 0 <= j < |rows| ==> rows[j].id != id) ==> r == rows
  {
    if rows == [] then []
    else if rows[0].id == id then Without(rows[1..], id)
    else [rows[0]] + Without(rows[1..], id)
  }

  /** With unique ids, deleting an existing id removes exactly one row. */
  lemma {:induction false} WithoutRemovesOne(rows: seq<Profile>, id: string)
    requires UniqueKeys(rows)
    ensures |Without(rows, id)| == |rows| - (if FindIndex(rows, IdColumn, id) >= 0 then 1 else 0)
  {
    if rows != [] {
      assert UniqueKeys(rows[1..]);
      WithoutRemovesOne(rows[1..], id);
      if rows[0].id == id {
        assert forall j :: 0 <= j < |rows[1..]| ==> rows[1..][j].id != id;
      }
    }
  }

  lemma {:induction false} WithoutKeepsUnique(rows: seq<Profile>, id: string)
    requires UniqueKeys(rows)
    ensures UniqueKeys(Without(rows, id))
  {
    if rows != [] {
      assert UniqueKeys(rows[1..]);
      WithoutKeepsUnique(rows[1..], id);
      var rest := Without(rows[1..], id);
      if rows[0].id != id {
        forall j | 0 <= j < |rest|
          ensures rows[0].id != rest[j].id && rows[0].email != rest[j].email && rows[0].slug != rest[j].slug
        {
          assert rest[j] in rows[1..];
        }
      }
    }
  }

  /** Would giving row `i` the values of `updated` duplicate the email or the
      slug of another row? */
  predicate UpdateClashes(rows: seq<Profile>, i: int, updated: Profile) {
    exists j :: 0 <= j < |rows| && j != i && (rows[j].email == updated.email || rows[j].slug == updated.slug)
  }

  /** A partial update: for each column, `None` when the request leaves it
      alone, `Some(v)` when it sets it to `v` (for a nullable column `v` may be
      `None`, SQL null). `id` and `createdAt` are not part of it. */
  datatype Patch = Patch(
    name: Option<string>,
    email: Option<string>,
    phone: Option<Option<string>>,
    address: Option<Option<string>>,
    age: Option<Option<int>>,
    profession: Option<string>,
    experience: Option<Option<string>>,
    skills: Option<Option<string>>,
    education: Option<Option<string>>,
    workExperience: Option<Option<string>>,
    achievements: Option<Option<string>>,
    profilePhoto: Option<Option<string>>,
    slug: Option<string>)

  /** A patch that names no column. */
  predicate IsEmptyPatch(q: Patch) {
    && q.name.None? && q.email.None? && q.phone.None? && q.address.None?
    && q.age.None? && q.profession.None? && q.experience.None? && q.skills.None?
    && q.education.None? && q.workExperience.None? && q.achievements.None?
    && q.profilePhoto.None? && q.slug.None?
  }

  function Pick<T>(given: Option<T>, current: T): T {
    if given.Some? then given.value else current
  }

  /** `update profiles set <patch>`: the supplied columns take their new
      values; every other column, `id` and `createdAt` among them, is kept. */
  function Apply(p: Profile, q: Patch): (r: Profile)
    ensures r.id == p.id && r.createdAt == p.createdAt
    ensures if q.name.Some? then r.name == q.name.value else r.name == p.name
    ensures if q.email.Some? then r.email == q.email.value else r.email == p.email
    ensures if q.phone.Some? then r.phone == q.phone.value else r.phone == p.phone
    ensures if q.address.Some? then r.address == q.address.value else r.address == p.address
    ensures if q.age.Some? then r.age == q.age.value else r.age == p.age
    ensures if q.profession.Some? then r.profession == q.profession.value else r.profession == p.profession
    ensures if q.experience.Some? then r.experience == q.experience.value else r.experience == p.experience
    ensures if q.skills.Some? then r.skills == q.skills.value else r.skills == p.skills
    ensures if q.education.Some? then r.education == q.education.value else r.education == p.education
    ensures if q.workExperience.Some? then r.workExperience == q.workExperience.value
            else r.workExperience == p.workExperience
    ensures if q.achievements.Some? then r.achievements == q.achievements.value
            else r.achievements == p.achievements
    ensures if q.profilePhoto.Some? then r.profilePhoto == q.profilePhoto.value
            else r.profilePhoto == p.profilePhoto
    ensures if q.slug.Some? then r.slug == q.slug.value else r.slug == p.slug
    ensures IsEmptyPatch(q) ==> r == p
  {
    p.(name := Pick(q.name, p.name),
       email := Pick(q.email, p.email),
       phone := Pick(q.phone, p.phone),
       address := Pick(q.address, p.address),
       age := Pick(q.age, p.age),
       profession := Pick(q.profession, p.profession),
       experience := Pick(q.experience, p.experience),
       skills := Pick(q.skills, p.skills),
       education := Pick(q.education, p.education),
       workExperience := Pick(q.workExperience, p.workExperience),
       achievements := Pick(q.achievements, p.achievements),
       profilePhoto := Pick(q.profilePhoto, p.profilePhoto),
       slug := Pick(q.slug, p.slug))
  }

  /** Applying the same update twice is the same as applying it once. */
  lemma ApplyIdempotent(p: Profile, q: Patch)
    ensures Apply(Apply(p, q), q) == Apply(p, q)
  {
  }

  /** `if (search)` followed by `ilike(name, %search%)`: no filter for a
      missing or empty search. */
  function Matching(rows: seq<Profile>, search: Option<string>): (r: seq<Profile>)
    ensures |r| <= |rows|
    ensures search.None? || search.value == "" ==> r == rows
    ensures search.Some? && search.value != "" ==>
      forall p :: p in r <==> p in rows && Ilike.NameMatches(p.name, search.value)
  {
    if search.None? || search.value == "" || rows == [] then rows
    else
      var rest := Matching(rows[1..], search);
      assert rows == [rows[0]] + rows[1..];
      if Ilike.NameMatches(rows[0].name, search.value) then [rows[0]] + rest else rest
  }

  /** The search keeps every matching row as many times as it is stored and
      drops every other row, so `total` counts the matching rows. */
  lemma {:induction false} MatchingCounts(rows: seq<Profile>, search: Option<string>)
    ensures forall p :: (multiset(Matching(rows, search))[p] ==
                         if search.None? || search.value == "" || Ilike.NameMatches(p.name, search.value)
                         then multiset(rows)[p] else 0)
  {
    if search.Some? && search.value != "" && rows != [] {
      MatchingCounts(rows[1..], search);
      assert rows == [rows[0]] + rows[1..];
      assert multiset(rows) == multiset([rows[0]]) + multiset(rows[1..]);
      var rest := Matching(rows[1..], search);
      if Ilike.NameMatches(rows[0].name, search.value) {
        assert multiset(Matching(rows, search)) == multiset([rows[0]]) + multiset(rest);
      }
    }
  }

  function CreatedAt(p: Profile): int {
    p.createdAt
  }

  function Min(a: int, b: int): int {
    if a <= b then a else b
  }

  class ProfileStore {
    var rows: seq<Profile>

    ghost predicate Valid()
      reads this
    {
      UniqueKeys(rows)
    }

    constructor ()
      ensures Valid() && rows == []
    {
      rows := [];
    }

    /** `getProfile(id)`. */
    function GetProfile(id: string): (r: Option<Profile>)
      reads this
      ensures r.Some? <==> exists j :: 0 <= j < |rows| && rows[j].id == id
      ensures r.Some? ==> r.value in rows && r.value.id == id
    {
      Find(rows, IdColumn, id)
    }

    /** `getProfileBySlug(slug)`. */
    function GetProfileBySlug(slug: string): (r: Option<Profile>)
      reads this
      ensures r.Some? <==> exists j :: 0 <= j < |rows| && rows[j].slug == slug
      ensures r.Some? ==> r.value in rows && r.value.slug == slug
    {
      Find(rows, SlugColumn, slug)
    }

    /** `getProfileByEmail(email)`. */
    function GetProfileByEmail(email: string): (r: Option<Profile>)
      reads this
      ensures r.Some? <==> exists j :: 0 <= j < |rows| && rows[j].email == email
      ensures r.Some? ==> r.value in rows && r.value.email == email
    {
      Find(rows, EmailColumn, email)
    }

    /** `createProfile(p)`: the store assigns `id` (the database's
        `gen_random_uuid()`, here a parameter) and `createdAt` (`now`). The
        insert fails, changing nothing, when the id, email or slug is taken;
        otherwise the new row is appended and every lookup by its keys finds it. */
    method CreateProfile(p: InsertProfile, id: string, now: int) returns (r: Result<Profile, DbError>)
      requires Valid()
      modifies this
      ensures Valid()
      ensures r.Failure? <==> Clashes(old(rows), id, p.email, p.slug)
      ensures r.Failure? ==> r.error == UniqueViolation && rows == old(rows)
      ensures r.Success? ==> r.value == ToRow(p, id, now) && rows == old(rows) + [r.value]
      ensures r.Success? ==>
        && GetProfile(id) == Some(r.value)
        && GetProfileBySlug(p.slug) == Some(r.value)
        && GetProfileByEmail(p.email) == Some(r.value)
    {
      if Clashes(rows, id, p.email, p.slug) {
        return Failure(UniqueViolation);
      }
      var row := ToRow(p, id, now);
      AppendFindsTheRow(rows, row);
      rows := rows + [row];
      r := Success(row);
    }

    /** `updateProfile(id, patch)`. A patch naming no column makes no valid
        statement and fails; an unknown id updates nothing and gives `None`;
        an update that would give the row another row's email or slug fails;
        otherwise exactly that row changes, to `Apply(row, patch)`. */
    method UpdateProfile(id: string, patch: Patch) returns (r: Result<Option<Profile>, DbError>)
      requires Valid()
      modifies this
      ensures Valid()
      ensures r.Failure? ==> rows == old(rows)
      ensures IsEmptyPatch(patch) ==> r == Failure(NoColumnToSet)
      ensures !IsEmptyPatch(patch) && old(GetProfile(id)).None? ==> r == Success(None) && rows == old(rows)
      ensures r.Success? && r.value.Some? ==>
        var i := FindIndex(old(rows), IdColumn, id);
        && 0 <= i < |old(rows)|
        && r.value.value == Apply(old(rows)[i], patch)
        && rows == old(rows)[i := r.value.value]
      ensures r == Success(None) ==> old(GetProfile(id)).None? && rows == old(rows)
      ensures r == Failure(UniqueViolation) ==> old(GetProfile(id)).Some?
      ensures var i := FindIndex(old(rows), IdColumn, id);
        !IsEmptyPatch(patch) && i >= 0 ==>
          if UpdateClashes(old(rows), i, Apply(old(rows)[i], patch)) then r == Failure(UniqueViolation)
          else r == Success(Some(Apply(old(rows)[i], patch)))
    {
      if IsEmptyPatch(patch) {
        return Failure(NoColumnToSet);
      }
      var i := FindIndex(rows, IdColumn, id);
      if i < 0 {
        return Success(None);
      }
      var updated := Apply(rows[i], patch);
      if UpdateClashes(rows, i, updated) {
        return Failure(UniqueViolation);
      }
      rows := rows[i := updated];
      r := Success(Some(updated));
    }

    /** `deleteProfile(id)`: true exactly when a row had that id. Afterwards no
        row has it, and every other row is still there, in order. */
    method DeleteProfile(id: string) returns (deleted: bool)
      requires Valid()
      modifies this
      ensures Valid()
      ensures deleted <==> old(GetProfile(id)).Some?
      ensures rows == Without(old(rows), id)
      ensures GetProfile(id).None?
      ensures |rows| == |old(rows)| - (if deleted then 1 else 0)
      ensures forall p :: p in old(rows) && p.id != id ==> p in rows
    {
      deleted := FindIndex(rows, IdColumn, id) >= 0;
      WithoutKeepsUnique(rows, id);
      WithoutRemovesOne(rows, id);
      rows := Without(rows, id);
    }

    /** `getAllProfiles(page, limit, search)`: a negative LIMIT or OFFSET is
        refused by the database. Otherwise `total` counts the rows whose name
        matches, whatever the page, and `profiles` is the newest-first list of
        those rows from offset `(page - 1) * limit`, at most `limit` of them. */
    function GetAllProfiles(page: int, limit: int, search: Option<string>): (r: Result<ProfilePage, DbError>)
      reads this
      ensures r.Failure? <==> limit < 0 || (page - 1) * limit < 0
      ensures r.Success? ==>
        var m := Matching(rows, search);
        var ordered := Ordering.NewestFirst(m, CreatedAt);
        var offset := (page - 1) * limit;
        && r.value.total == |m|
        && |r.value.profiles| <= limit
        && |r.value.profiles| == (if offset >= |m| then 0 else Min(limit, |m| - offset))
        && (forall k :: 0 <= k < |r.value.profiles| ==> r.value.profiles[k] == ordered[offset + k])
    {
      var offset := (page - 1) * limit;
      if limit < 0 then Failure(NegativeLimit)
      else if offset < 0 then Failure(NegativeOffset)
      else
        var m := Matching(rows, search);
        var ordered := Ordering.NewestFirst(m, CreatedAt);
        var from := Min(offset, |m|);
        var to := Min(offset + limit, |m|);
        var ps := ordered[from..to];
        assert |ps| == (if offset >= |m| then 0 else Min(limit, |m| - offset));
        assert forall k :: 0 <= k < |ps| ==> ps[k] == ordered[offset + k];
        Success(ProfilePage(ps, |m|))
    }
  }

  /** A page of the listing is newest first, and every profile on it matches
      the search. */
  lemma PageIsNewestFirstAndMatches(store: ProfileStore, page: int, limit: int, search: Option<string>)
    requires store.GetAllProfiles(page, limit, search).Success?
    ensures var ps := store.GetAllProfiles(page, limit, search).value.profiles;
      && Ordering.SortedDesc(ps, CreatedAt)
      && forall p :: p in ps ==> p in Matching(store.rows, search)
  {
    var m := Matching(store.rows, search);
    var ordered := Ordering.NewestFirst(m, CreatedAt);
    var offset := (page - 1) * limit;
    var ps := ordered[Min(offset, |m|)..Min(offset + limit, |m|)];
    assert store.GetAllProfiles(page, limit, search).value.profiles == ps;
    forall p | p in ps ensures p in m {
      assert p in ordered;
      assert p in multiset(ordered);
    }
  }

  /** Without a search, `total` is the number of stored profiles. */
  lemma TotalWithoutSearch(store: ProfileStore, page: int, limit: int, search: Option<string>)
    requires search.None? || search.value == ""
    requires limit >= 0 && page >= 1
    ensures store.GetAllProfiles(page, limit, search) ==
      Success(store.GetAllProfiles(page, limit, search).value.(total := |store.rows|))
  {
  }

  /** The listing example: with 13 stored profiles and no search, page 2 of 12
      holds exactly one profile (the oldest), and `total` is 13. */
  lemma SecondPageOfThirteen(store: ProfileStore)
    requires |store.rows| == 13
    ensures store.GetAllProfiles(2, 12, None).Success?
    ensures |store.GetAllProfiles(2, 12, None).value.profiles| == 1
    ensures store.GetAllProfiles(2, 12, None).value.total == 13
  {
  }
}
