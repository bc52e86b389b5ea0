/** The listing card (client/src/components/profile-card.tsx): the skill tags
    it shows and the link to the public profile page. */
module ProfileCard {
  import opened Wrappers
  import opened Text
  import opened Schema
  import ProfileView
  import Storage
  import Routes

  /** The card shows at most this many skill tags. */
  const MaxTags: nat := 3

  /** `skillsArray.slice(0, 3)`: the first three skills, or all of them when
      there are fewer. */
  function ShownSkills(p: Profile): (r: seq<string>)
    ensures |r| <= MaxTags
    ensures var all := ProfileView.SkillsArray(p.skills);
      |r| <= |all| && r == all[..|r|] && (|r| == MaxTags || r == all)
  {
    var all := ProfileView.SkillsArray(p.skills);
    if |all| <= MaxTags then all else all[..MaxTags]
  }

  /** `skillsArray.length > 0`. */
  predicate ShowSkillsSection(p: Profile) {
    |ProfileView.SkillsArray(p.skills)| > 0
  }

  /** The skills section is left out exactly when the profile has no skills
      text; an entered text always yields at least one tag, even one made
      only of commas. */
  lemma SkillsSectionExactly(p: Profile)
    ensures ShowSkillsSection(p) <==> p.skills.Some? && p.skills.value != []
    ensures ShowSkillsSection(p) <==> |ShownSkills(p)| > 0
  {
  }

  /** `/profile/${profile.slug}`. */
  function CardLink(p: Profile): (link: string)
    ensures IsPrefix("/profile/", link) && link[|"/profile/"|..] == p.slug
  {
    "/profile/" + p.slug
  }

  /** The client route `/profile/:slug`: the path must be `/profile/`
      followed by one non-empty segment, which is the slug. */
  function RouteSlug(path: string): (slug: Option<string>)
    ensures slug.Some? ==>
      slug.value != [] && '/' !in slug.value && path == "/profile/" + slug.value
  {
    var prefix := "/profile/";
    if IsPrefix(prefix, path) && |path| > |prefix| && '/' !in path[|prefix|..] then
      assert path == prefix + path[|prefix|..];
      Some(path[|prefix|..])
    else None
  }

  /** The card's link opens the profile page of the card's own profile: the
      route reads the slug back, and the server answers with that profile.
      A profile whose slug is empty (a name with no ASCII letter, digit,
      space or hyphen) has a link the route does not match. */
  lemma CardLinkOpensProfile(store: Storage.ProfileStore, i: int)
    requires store.Valid() && 0 <= i < |store.rows|
    requires '/' !in store.rows[i].slug
    ensures var p := store.rows[i];
      RouteSlug(CardLink(p)) == (if p.slug == [] then None else Some(p.slug))
    ensures var p := store.rows[i];
      Routes.GetBySlug(store, p.slug) == Routes.Response(200, Routes.ProfileBody(p))
  {
    var p := store.rows[i];
    var link := CardLink(p);
    assert link[|"/profile/"|..] == p.slug;
    Storage.FindsTheRow(store.rows, Storage.SlugColumn, i);
  }
}
