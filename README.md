# Show Yourself — a Dafny model of the profile directory

Show Yourself is a small web application where people publish a bio-data profile:
- A visitor fills in a form.
- The server validates the form, gives the profile a unique URL slug and stores it.
- A home page lists the profiles, newest first, twelve per page, with a name search.
- Each profile has a public page.
- An admin dashboard counts the profiles and exports them as CSV.

This project models the core of the server and of the pages, and proves what each part promises:

- **Text** (`text.dfy`): the JavaScript string built-ins the code relies on. These are white space and `trim`, ASCII `toLowerCase`, `split` and `join`, `String(n)`, `parseInt` and `Number`. Each comes with its round trips.
- **Schema** (`schema.dfy`): the `profiles` row and the insert record. It also covers `insertProfileSchema`: the required fields, the age rule 18..100, and the keys it drops.
- **Slug** (`slug.dfy`): `generateSlug`, stage by stage.
- **SlugLaws** (`slug_laws.dfy`): what each stage of `generateSlug` does exactly. It covers how a stage splits over a concatenation and what it makes of a run of white space or hyphens. It proves that every letter and digit of the name survives, in order, and that two words give the words joined by one hyphen.
- **Ilike** (`ilike.dfy`): PostgreSQL `ILIKE` as a pattern matcher. For an ordinary search, the listing's `%search%` filter is a case-insensitive substring test.
- **Ordering** (`ordering.dfy`): newest-first ordering, sorted and a permutation.
- **Storage** (`storage.dfy`): `DatabaseStorage` as a class whose field is the table. The table's unique keys are the class invariant.
- **Routes** (`routes.dfy`): the HTTP handlers:
  - the query defaults;
  - the slug probe loop (a `while` loop with its invariants);
  - create, update and delete with their status codes;
  - the 404 mapping.
- **CreateForm** (`create_form.dfy`): the create page. It covers the form's own validation, the `FormData` loop and the photo picker.
- **Home** (`home.dfy`): the home page's state and query, and its pagination controls.
- **Admin** (`admin.dfy`): the dashboard. It covers the CSV export and its read-back, the status filters and counts, and the recent list.
- **ProfileView** (`profile_view.dfy`): the profile page. It covers the skills and achievements lists and the meta texts.
- **ProfileCard** (`profile_card.dfy`): the listing card's tags and its link.

Values outside the program are parameters:
- the database's generated `id` and `now` timestamp;
- the stored file name of an upload;
- Zod's email check (`isEmail`);
- the time a date string stands for.

Where the code and its description disagree, the model follows the code:
- **Slug trim.** `generateSlug`'s final `trim` removes white space only, and none is left by then. A name that starts or ends with a space or a hyphen therefore gives a slug that starts or ends with a hyphen (`Slug.TrimIsNoOp`, `Slug.LeadingHyphenSurvives`, `Slug.TrailingHyphenSurvives`).
- **Status.** The table has no `status` column, so the `Pending` status the create handler sets is dropped by validation. The profiles the dashboard receives carry no status, so its pending list and its counts are empty (`Admin.ServerProfilesHaveNoStatus`).
- **Status-only update.** The dashboard's status update sends a body whose only key is `status`. That body sets no column, so the update fails with 500 (`Routes.StatusOnlyUpdateIsEmpty`, `Routes.UpdateProfileRoute`).
- **Profession filter.** The home page sends a `profession` parameter, but the server never reads it (`Home.ProfessionIsIgnored`).
- **Empty slug.** A name with no ASCII letter, digit, space or hyphen (such as "李明") gives an empty slug. The card's link for it does not match the `/profile/:slug` route (`ProfileCard.CardLinkOpensProfile`). A name of only spaces or hyphens gives the slug `-`.
- **Dashboard page.** The dashboard requests `/api/profiles` without a page or a limit, so the server's defaults apply. Its list, tallies, export and total only ever see the 12 newest matching profiles (`Admin.DashboardSeesFirstPage`).

## Model

| member | source | states |
|---|---|---|
| Text.Trim | client/src/pages/profile.tsx:59 | `trim` leaves no white space at either end, and returns a string without white space unchanged |
| Text.StripsEndsOfTrim | client/src/pages/profile.tsx:59 | `trim` gives a piece of the text with nothing but white space before it and after it |
| Text.TrimUnique | client/src/pages/profile.tsx:59 | any piece with only white space around it and none at its ends is the `trim` |
| Text.TrimIgnoresSpace | client/src/pages/profile.tsx:59 | white space added before or after a text does not change its `trim` |
| Text.TrimEmpty | client/src/pages/profile.tsx:60 | a line trims to nothing exactly when it is all white space (the achievements filter's test) |
| Text.Lower | server/routes.ts:38 | `toLowerCase` keeps the length and lower-cases each character |
| Text.Split | client/src/pages/profile.tsx:59 | `split` gives one more piece than there are separators, none of them holding the separator |
| Text.JoinSplit | client/src/pages/profile.tsx:59 | joining the pieces of a split with the separator gives back the text |
| Text.SplitJoin | client/src/pages/profile.tsx:60 | splitting a join of separator-free pieces gives back the pieces |
| Text.JoinHasPart | client/src/pages/profile.tsx:102 | every piece of a join occurs in it |
| Text.ParseIntOfIntToString | server/routes.ts:52-53 | `parseInt` reads back every integer `String` writes |
| Text.ParseInt | server/routes.ts:52-53 | blank text, or text whose first non-blank character is not a digit or a sign, is not a number (`NaN`); a first digit 1-9 gives a non-negative number; only a leading `-` gives a negative one, and it gives no positive one; `Text.ParseIntOfIntToString` reads back every integer |
| Text.Number | shared/schema.ts:30 | blank text reads as 0, any other text as the decimal reading of its trimmed form; `Text.NumberIgnoresSpace`, `Text.NumberOfDigits` and `Text.NumberOfIntToString` state what that reading gives |
| Text.NumberIgnoresSpace | shared/schema.ts:30 | white space around a text does not change what `Number` reads |
| Text.NumberOfDigits | shared/schema.ts:30 | a run of decimal digits, alone or after a minus sign, reads as the number the digits stand for |
| Text.NumberOfIntToString | shared/schema.ts:30 | `Number` reads back every integer `String` writes |
| Text.NatToStringValue | client/src/pages/home.tsx:26 | the decimal numeral `String` writes stands for the number |
| Schema.CheckAge | shared/schema.ts:29-32 | an empty or missing age is absent; a number is accepted exactly when 18 <= n <= 100; NaN is rejected |
| Schema.Validate | shared/schema.ts:6-33 | validation fails, naming the fields, exactly when a required column is missing or the age is rejected; on success every column is taken from the body as given |
| Schema.ValidateIgnoresOtherKeys | shared/schema.ts:24-27 | a key outside the insert schema changes nothing |
| Schema.StatusIdCreatedAtDropped | shared/schema.ts:24-27 | `status`, `id` and `createdAt` in a body are never taken |
| Slug.KeepSlugChars | server/routes.ts:39 | only characters of `[a-z0-9 -]` remain; a text made of them is unchanged; a kept first or last character stays first or last; `SlugLaws.KeepSlugCharsAppend` and `SlugLaws.KeepSlugCharsOne` pin every output |
| SlugLaws.KeepSlugCharsAppend | server/routes.ts:39 | the filter works character by character: filtering a concatenation concatenates the filtered parts, so the kept characters stay in order |
| SlugLaws.KeepSlugCharsOne | server/routes.ts:39 | one character is kept when it is in `[a-z0-9 -]` and dropped otherwise |
| SlugLaws.KeepSlugCharsNone | server/routes.ts:39 | a text with no character of `[a-z0-9 -]` is dropped entirely |
| Slug.SpacesToHyphens | server/routes.ts:40 | no white space is left and every other character comes from the text; a text without white space is unchanged; an end is a hyphen exactly when it was a hyphen or white space; `SlugLaws.SpacesToHyphensAppend` and `SlugLaws.SpaceRunIsHyphen` pin every output |
| SlugLaws.SpacesToHyphensAppend | server/routes.ts:40 | the rewrite can be split anywhere outside a white-space run, so characters other than white space stay in place and in order |
| SlugLaws.SpaceRunIsHyphen | server/routes.ts:40 | a whole run of white space becomes exactly one hyphen |
| Slug.CollapseHyphens | server/routes.ts:41 | no two hyphens in a row are left and every character comes from the text; a text without them is unchanged; the ends keep their hyphens; `SlugLaws.CollapseHyphensAppend` and `SlugLaws.HyphenRunIsHyphen` pin every output |
| SlugLaws.CollapseHyphensAppend | server/routes.ts:41 | the rewrite can be split anywhere outside a hyphen run, so other characters stay in place and in order |
| SlugLaws.HyphenRunIsHyphen | server/routes.ts:41 | a whole run of hyphens becomes exactly one hyphen |
| SlugLaws.KeepSlugCharsLetters | server/routes.ts:39 | the filter keeps every letter and digit of `[a-z0-9]`, in order |
| SlugLaws.SpacesToHyphensLetters | server/routes.ts:40 | the white-space rewrite keeps every letter and digit, in order |
| SlugLaws.CollapseHyphensLetters | server/routes.ts:41 | the hyphen rewrite keeps every letter and digit, in order |
| Slug.GenerateSlug | server/routes.ts:36-43 | every slug holds only `[a-z0-9-]` and never two hyphens in a row; which slug a name gets is stated by `SlugLaws.SlugKeepsLettersAndDigits` and `SlugLaws.TwoWordSlug` |
| SlugLaws.SlugKeepsLettersAndDigits | server/routes.ts:36-43 | removing the hyphens from a name's slug leaves every `[a-z0-9]` character of the lower-cased name, in order |
| SlugLaws.TwoWordSlug | server/routes.ts:36-43 | two words of `[a-z0-9]` separated by spaces and followed by dropped characters give the two words joined by one hyphen |
| SlugLaws.JohnDoeSlug | server/routes.ts:36-43 | "John  Doe!" gives "john-doe" |
| Slug.RewrittenIsSlug | server/routes.ts:37-41 | the four rewrites give a slug without white space |
| Slug.TrimIsNoOp | server/routes.ts:42 | the final `trim` changes nothing |
| Slug.SlugIsFixedPoint | server/routes.ts:36-43 | a slug is its own slug |
| Slug.GenerateSlugIdempotent | server/routes.ts:36-43 | `generateSlug` is idempotent |
| Slug.LeadingHyphenSurvives | server/routes.ts:36-43 | a name starting with a space or hyphen gives a slug starting with a hyphen |
| Slug.TrailingHyphenSurvives | server/routes.ts:36-43 | a name ending with a space or hyphen gives a slug ending with a hyphen |
| Ilike.PercentMatchesAll | server/storage.ts:46 | `%` matches every text |
| Ilike.PlainThenPercent | server/storage.ts:46 | for a pattern `q%` without special characters, a match is exactly a text starting with `q` |
| Ilike.PercentThen | server/storage.ts:46 | a leading `%` matches when the rest matches some suffix |
| Ilike.PlainSearchIsSubstring | server/storage.ts:46 | for a search without `%`, `_` or backslash, the name filter is a case-insensitive substring test, both directions |
| Ilike.SearchFindsAlice | server/storage.ts:46 | "ali" finds "Alice Johnson" |
| Ilike.SearchSkipsBob | server/storage.ts:46 | "ali" does not find "Bob Smith" |
| Ilike.ILike | server/storage.ts:46 | LIKE after ASCII lower-casing of both sides; `Ilike.PlainSearchIsSubstring` states it for the name filter |
| Ilike.NameMatches | server/storage.ts:46 | the `%search%` pattern; `Ilike.PlainSearchIsSubstring` proves that a search without special characters matches exactly the names holding it, ignoring case |
| Ordering.InsertDescSorted | server/storage.ts:50 | inserting into a newest-first sequence keeps it newest first |
| Ordering.InsertDescPermutes | server/storage.ts:50 | inserting adds the element and loses nothing |
| Ordering.NewestFirst | server/storage.ts:50 | the result is sorted by descending key and is a permutation of the input |
| Ordering.PrefixIsNewest | client/src/pages/admin.tsx:129-131 | the first `k` of a newest-first sequence are at least as new as the rest |
| Storage.FindIndex | server/storage.ts:17-30 | the first row with the key, or -1 exactly when no row has it |
| Storage.Find | server/storage.ts:17-30 | a lookup finds nothing exactly when no row has the key, otherwise a stored row with that key |
| Storage.FindsTheRow | server/storage.ts:17-30 | under the unique constraints, a lookup by a row's key finds that row |
| Storage.AppendFindsTheRow | server/storage.ts:32-38 | a row clashing with no key can be appended under the constraints, and every lookup by its keys finds it |
| Storage.Without | server/storage.ts:78-81 | the rows left after a delete are exactly those with another id |
| Storage.WithoutRemovesOne | server/storage.ts:78-81 | with unique ids, deleting an existing id removes exactly one row, a missing id none |
| Storage.WithoutKeepsUnique | server/storage.ts:78-81 | a delete keeps the unique constraints |
| Storage.Apply | server/storage.ts:69-76 | every column the patch names takes the patch's value; `id`, `createdAt` and every other column are kept; an empty patch changes nothing |
| Storage.ApplyIdempotent | server/storage.ts:69-76 | applying the same update twice equals applying it once |
| Storage.Matching | server/storage.ts:45-47 | no search or an empty one keeps every row; otherwise the result holds exactly the stored rows whose name matches |
| Storage.MatchingCounts | server/storage.ts:45-47 | every row whose name matches (every row, for no or an empty search) is kept exactly as many times as it is stored, and every other row is dropped |
| Storage.ProfileStore.GetProfile | server/storage.ts:17-20 | finds a row exactly when one has the id, and then one with that id |
| Storage.ProfileStore.GetProfileBySlug | server/storage.ts:22-25 | finds a row exactly when one has the slug, and then one with that slug |
| Storage.ProfileStore.GetProfileByEmail | server/storage.ts:27-30 | finds a row exactly when one has the email, and then one with that email |
| Storage.ProfileStore.CreateProfile | server/storage.ts:32-38 | a key clash fails and changes nothing; otherwise the new row is appended and is found by its id, slug and email |
| Storage.ProfileStore.UpdateProfile | server/storage.ts:69-76 | an empty patch fails; an unknown id gives nothing; for an existing id, it fails with a unique violation exactly when the updated row would share its email or slug with another row, and otherwise returns `Apply(row, patch)`; a success changes exactly that row; a failure changes nothing |
| Storage.ProfileStore.DeleteProfile | server/storage.ts:78-81 | true exactly when a row had the id; afterwards no row has it and every other row stays, in order |
| Storage.ProfileStore.GetAllProfiles | server/storage.ts:40-67 | a negative limit or offset fails; `total` is the length of `Matching`, so by `Storage.MatchingCounts` it counts each matching row exactly as often as it is stored (server/storage.ts:55-61); `profiles` is the newest-first matching list from offset `(page-1)*limit`, at most `limit` long |
| Storage.PageIsNewestFirstAndMatches | server/storage.ts:45-52 | a page is newest first and every profile on it matches the search |
| Storage.TotalWithoutSearch | server/storage.ts:54-61 | without a search, `total` is the number of stored rows |
| Storage.SecondPageOfThirteen | server/storage.ts:40-67 | with 13 rows, page 2 of 12 holds one profile and `total` is 13 |
| Routes.QueryInt | server/routes.ts:52-53 | the parsed number when it is a non-zero integer, otherwise the default |
| Routes.QueryIntReadsBack | server/routes.ts:52-53 | a number written with `String` reads back as written, 0 falling back to the default |
| Routes.PageParam | server/routes.ts:52 | never 0; 1 when the query has no page; otherwise 1 or the number `parseInt` reads from the page |
| Routes.LimitParam | server/routes.ts:53 | never 0; 12 when the query has no limit; otherwise 12 or the number `parseInt` reads from the limit |
| Routes.ListProfiles | server/routes.ts:50-62 | 500 exactly when the page or limit is negative, otherwise 200 with the store's page for the defaulted values |
| Routes.ListingRefused | server/storage.ts:41 | with non-zero values, the database refuses exactly a negative page or limit |
| Routes.GetBySlug | server/routes.ts:65-79 | 404 exactly when no row has the slug, otherwise 200 with that row |
| Routes.ProbeSlug | server/routes.ts:94-104 | the loop returns the first free candidate of `base`, `base-1`, `base-2`, ... |
| Routes.FirstFreeCandidateUnique | server/routes.ts:99-102 | there is one first free candidate, and it is among the first `|rows| + 1` |
| Routes.FirstFreeCandidate | server/routes.ts:99-102 | the slug the loop ends on: a candidate no row has, after every earlier candidate was taken; `Routes.ProbeSlug` ensures the loop returns it and `Routes.FirstFreeCandidateUnique` that it is unique |
| Routes.CandidateInjective | server/routes.ts:100 | different counters give different candidates |
| Routes.TakenCandidatesBound | server/routes.ts:99-102 | the probe cannot find more taken candidates than there are rows |
| Routes.Completed | server/routes.ts:86-104 | the completed body keeps the request's fields and sets the photo, status `Pending` and the slug |
| Routes.CompletedFields | server/routes.ts:84-107 | an accepted completed body carries the request's name, email, profession, age, the photo and the probed slug |
| Routes.CompletedIssues | server/routes.ts:104-107 | validation of the completed body fails on exactly the request's own issues |
| Routes.CreateProfileRoute | server/routes.ts:82-124 | no name: 500; invalid fields: 400 naming them; email in use: 400; a valid body with a free email gives 201 when the id is free and 500 when it is taken; only a 201 changes the store, appending the validated row with the first free slug |
| Routes.PgInteger | server/routes.ts:137 | the database's integer input accepts only 32-bit values |
| Routes.PgIntegerOfIntToString | server/routes.ts:137 | every 32-bit integer written with `String` reads back |
| Routes.PatchFromBody | server/routes.ts:130-137 | fails exactly on an unreadable age; the patch is empty exactly when the body names no column |
| Routes.WithUpload | server/routes.ts:133-135 | an upload replaces `profilePhoto` and nothing else |
| Routes.UpdateProfileRoute | server/routes.ts:127-148 | an empty or unreadable body gives 500, an unknown id 404; a readable non-empty body for an existing id gives 200 exactly when the updated row shares no email or slug with another row, otherwise 500; a 200 updates exactly that row and returns it |
| Routes.StatusOnlyUpdateIsEmpty | server/routes.ts:137 | a body holding only `status` sets no column |
| Routes.DeleteProfileRoute | server/routes.ts:151-165 | 404 exactly when no row has the id; otherwise the row is removed and every other row stays |
| CreateForm.AgeField | client/src/pages/create-profile.tsx:211 | an empty input clears the age; otherwise the field holds the number `parseInt` reads, or NaN when it reads none |
| CreateForm.AgeFieldIssue | client/src/pages/create-profile.tsx:21-24 | the form rejects the typed age exactly when it is not empty and `parseInt` reads no number or one outside 18..100 |
| CreateForm.AgeFieldValidated | client/src/pages/create-profile.tsx:21-24 | a form that passes has no age exactly when the input was empty, and otherwise the number `parseInt` read |
| CreateForm.AgeFieldOfIntToString | client/src/pages/create-profile.tsx:211 | typing the digits of a number stores that number |
| CreateForm.ValidateForm | client/src/pages/create-profile.tsx:16-31 | fails, naming the fields, exactly on a short name or profession, a bad email or an age outside 18..100 |
| CreateForm.Submitted | client/src/pages/create-profile.tsx:62-66 | only non-empty text parts are appended, no more than there are entries |
| CreateForm.BuildFormData | client/src/pages/create-profile.tsx:59-70 | the loop builds the kept entries' text parts, in order, then the photo part |
| CreateForm.SubmittedHasKept | client/src/pages/create-profile.tsx:62-66 | every kept entry is sent under its key as its string form |
| CreateForm.SubmittedOnlyKept | client/src/pages/create-profile.tsx:62-66 | every sent part comes from a kept entry |
| CreateForm.BodyOfSubmitted | client/src/pages/create-profile.tsx:62-66 | with distinct keys, the body has a key exactly when its entry is kept, with its string form |
| CreateForm.ClientAcceptedServerAccepts | client/src/pages/create-profile.tsx:16-31 | a form the page accepts passes the server's validation, with name, email and profession as typed |
| CreateForm.RequiredFieldsArrive | client/src/pages/create-profile.tsx:59-66 | name, email and profession reach the server as typed |
| CreateForm.AcceptedAgeArrives | client/src/pages/create-profile.tsx:21-24 | an age the page accepts is one the server accepts |
| CreateForm.PhotoPicker.HandlePhotoChange | client/src/pages/create-profile.tsx:101-120 | no file changes nothing; a file over 5 MiB is refused and the old photo kept; otherwise the file becomes the photo |
| Home.TotalPages | client/src/pages/home.tsx:41 | the fewest pages of 12 that hold `total` |
| Home.ShowPaginationExactly | client/src/pages/home.tsx:227 | pagination is shown exactly when there are more than 12 profiles |
| Home.PageButtons | client/src/pages/home.tsx:240 | the buttons are 1..min(5, totalPages) |
| Home.ButtonsAreExistingPages | client/src/pages/home.tsx:240-247 | every button names an existing page, none beyond the fifth |
| Home.PrevPage | client/src/pages/home.tsx:233 | one page back, never below 1 |
| Home.NextPage | client/src/pages/home.tsx:258 | one page on, never beyond the last |
| Home.PrevNextInverse | client/src/pages/home.tsx:233-258 | inside the page range, Prev undoes Next and Next undoes Prev |
| Home.HomePage.constructor | client/src/pages/home.tsx:18-20 | page 1, empty search and profession |
| Home.HomePage.HandleSearch | client/src/pages/home.tsx:43-46 | sets the search and returns to page 1 |
| Home.HomePage.HandleProfessionFilter | client/src/pages/home.tsx:48-51 | `all` clears the profession filter; page back to 1 |
| Home.HomePage.Prev | client/src/pages/home.tsx:233 | page becomes `PrevPage(page)`, staying >= 1 |
| Home.HomePage.Next | client/src/pages/home.tsx:258 | page becomes `NextPage(page)`, staying within the pages |
| Home.HomePage.GoTo | client/src/pages/home.tsx:247 | page becomes the button's number |
| Home.HomePage.Query | client/src/pages/home.tsx:25-31 | the query has the page, limit 12, and search and profession when not empty |
| Home.ServerReadsHomeQuery | client/src/pages/home.tsx:25-31 | the server reads the same page, limit 12 and the same search |
| Home.ProfessionIsIgnored | server/routes.ts:52-54 | adding a `profession` parameter leaves the listing unchanged |
| Admin.StringOf | client/src/pages/admin.tsx:114 | null becomes the empty text, a string stays as it is |
| Admin.Get | client/src/pages/admin.tsx:128 | a field lookup finds nothing exactly when no key matches |
| Admin.Escape | client/src/pages/admin.tsx:114 | every quote doubled: the length grows by the number of quotes |
| Admin.ExportCsv | client/src/pages/admin.tsx:107-117 | nothing for an empty list; otherwise the header line, then one record per profile, joined by line feeds |
| Admin.ReadQuotedEscape | client/src/pages/admin.tsx:114 | unquoting an escaped field gives back the text |
| Admin.ReadFieldsOfRecord | client/src/pages/admin.tsx:113-115 | a written record reads back as its texts |
| Admin.ReadRecordsOfRows | client/src/pages/admin.tsx:109-117 | records joined by line feeds read back as the rows, quotes, commas and line feeds included |
| Admin.ExportReadsBack | client/src/pages/admin.tsx:107-117 | the export's records read back as every profile's values in order |
| Admin.HeaderReadsBack | client/src/pages/admin.tsx:111 | the header splits back into the first profile's keys when none holds a comma |
| Admin.Header | client/src/pages/admin.tsx:111 | the first profile's keys joined by commas; `Admin.HeaderReadsBack` splits it back into the keys and `Admin.ServerHeader` gives it for a server row |
| Admin.Record | client/src/pages/admin.tsx:112-115 | each value as text, quoted, joined by commas; `Admin.ReadFieldsOfRecord` reads it back as the texts |
| Admin.WithStatusMembers | client/src/pages/admin.tsx:128 | the filter keeps exactly the profiles with that status |
| Admin.WithStatusAppend | client/src/pages/admin.tsx:128 | the filter keeps the order |
| Admin.WithStatus | client/src/pages/admin.tsx:128 | never longer than the list; `Admin.WithStatusMembers` and `Admin.WithStatusAppend` state which profiles it keeps and in what order |
| Admin.PendingProfiles | client/src/pages/admin.tsx:128 | the status filter for `Pending`; by `Admin.WithStatusMembers` it holds exactly the pending profiles, in order |
| Admin.TalliesAddUp | client/src/pages/admin.tsx:151-165 | the Pending, Verified and Rejected counts add up to the total when each profile has one of them |
| Admin.Tally | client/src/pages/admin.tsx:151-165 | the number of profiles with a status; `Admin.TalliesAddUp` proves the three counts add up to the total |
| Admin.RecentProfiles | client/src/pages/admin.tsx:129-131 | the five (or fewer) newest profiles, newest first, taken from the list with no profile more often than it occurs there |
| Admin.RecentAreNewest | client/src/pages/admin.tsx:129-131 | a profile left out of the recent list is no newer than any in it |
| Admin.ToJson | server/routes.ts:57 | a row is sent with the table's columns as keys, in order |
| Admin.ServerProfilesHaveNoStatus | client/src/pages/admin.tsx:128 | the server's profiles have no status: the pending queue is empty and every count is 0 |
| Admin.ServerHeader | client/src/pages/admin.tsx:111 | the export header of the server's profiles is the column list |
| Admin.DashboardQuery | client/src/pages/admin.tsx:57-61 | the request carries `search` and `status` when set, and never a page or a limit |
| Admin.DashboardSeesFirstPage | client/src/pages/admin.tsx:57-61 | the server reads page 1 and limit 12 from it, so the dashboard receives at most the 12 newest matching profiles |
| ProfileView.SkillsArray | client/src/pages/profile.tsx:59 | nothing for no skills; otherwise one trimmed, comma-free entry per comma-separated piece, in order |
| ProfileView.SkillsReadBack | client/src/pages/profile.tsx:59 | skills typed as `a, b, c` come back as typed |
| ProfileView.JoinLongerSeparator | client/src/pages/profile.tsx:59 | joining with `", "` is joining with `","` after a space in front of every piece but the first |
| ProfileView.FilterMembers | client/src/pages/profile.tsx:60 | the filter keeps exactly the lines it accepts |
| ProfileView.FilterAppend | client/src/pages/profile.tsx:60 | the filter keeps the order |
| ProfileView.AchievementsArray | client/src/pages/profile.tsx:60 | nothing for no achievements; every entry is one line of the text with something other than white space |
| ProfileView.AchievementsAreTheNonBlankLines | client/src/pages/profile.tsx:60 | an achievement is shown exactly when it is a non-blank line of the text |
| ProfileView.AchievementsReadBack | client/src/pages/profile.tsx:60 | non-blank lines written one per line come back as written |
| ProfileView.BlankLineDropped | client/src/pages/profile.tsx:60 | a blank line between two achievements is dropped |
| ProfileView.ExperienceText | client/src/pages/profile.tsx:72 | the experience when given and not empty, otherwise `professional` |
| ProfileView.Description | client/src/pages/profile.tsx:72 | `<profession> with <experience> experience`; `ProfileView.DescriptionNamesExperience` states it names the experience or `professional` |
| ProfileView.SeoDescription | client/src/pages/profile.tsx:101 | the meta description; `ProfileView.SeoDescriptionHasDescription` states it contains `Description` |
| ProfileView.OgDescription | client/src/pages/profile.tsx:104 | the Open Graph description; `ProfileView.OgDescriptionHasDescription` states it contains `Description` |
| ProfileView.Keywords | client/src/pages/profile.tsx:102 | the meta keywords; `ProfileView.KeywordsListSkills` and `ProfileView.KeywordsKeepTypedSkills` state that every skill appears in them, as typed |
| ProfileView.SeoDescriptionHasDescription | client/src/pages/profile.tsx:101 | the meta description contains the structured-data description |
| ProfileView.OgDescriptionHasDescription | client/src/pages/profile.tsx:104 | the Open Graph description contains it too |
| ProfileView.DescriptionNamesExperience | client/src/pages/profile.tsx:72 | the description names the experience; when it is missing or empty the description is exactly `<profession> with professional experience` |
| ProfileView.KeywordsListSkills | client/src/pages/profile.tsx:102 | every skill appears in the keywords |
| ProfileView.KeywordsKeepTypedSkills | client/src/pages/profile.tsx:102 | skills typed as `a, b, c` appear in the keywords exactly as typed |
| ProfileCard.ShownSkills | client/src/components/profile-card.tsx:40 | the first three skills, or all of them when there are fewer |
| ProfileCard.SkillsSectionExactly | client/src/components/profile-card.tsx:37 | the skills section shows exactly when skills text was entered, and then at least one tag |
| ProfileCard.CardLink | client/src/components/profile-card.tsx:61 | the link is `/profile/` followed by the slug |
| ProfileCard.RouteSlug | client/src/App.tsx:24 | a path matches `/profile/:slug` only as `/profile/` and one non-empty segment |
| ProfileCard.CardLinkOpensProfile | client/src/components/profile-card.tsx:61 | the route reads the card's slug back (unless it is empty) and the server answers 200 with that profile |

## Left out

- File upload handling is not modelled: multer's disk storage, the file-name generation, the `image/` mimetype filter and its 5 MB limit. A create or update receives the stored file name, or nothing, as a parameter.
- The database connection (`server/db.ts`) and the asynchronous calls are not modelled. The table is a sequence of rows, and each statement is atomic.
- Concurrency is not modelled. Between the slug probe and the insert, another request could take the slug. The model runs one request at a time, and the unique constraint turns such a clash into a 500.
- The dashboard's analytics and activity queries call endpoints the server does not define, and they are not modelled. The dashboard's `status` query parameter and the home page's `profession` parameter are modelled only as ignored by the server.
- Zod's email check is the parameter `isEmail` of the form model. The server's schema checks no email format.
- Text.Lower: `toLowerCase` covers ASCII only and keeps every other character. JavaScript lower-cases some non-ASCII characters to ASCII, for example the Kelvin sign U+212A to "k" and "İ" to "i" followed by a combining dot. For names holding them the model's slug differs: a name made of the Kelvin sign gives "" where the code gives "k", and "İlker" gives "lker" where the code gives "ilker". ILIKE's lower-casing is the same ASCII mapping.
- Text.Trim: its own contract says only that no white space is left at either end. That the result is the text with the white space at its ends removed is the lemma `Text.StripsEndsOfTrim`. It is kept out of the function's contract so that every proof that uses `trim` does not carry it.
- Text.Number covers white space and signed decimal integers. Fractions, exponents, `0x` forms and `Infinity` are NaN in the model.
- Text.IsSpace is the ECMAScript white-space set. PostgreSQL's integer input skips a smaller set of white space, which is not modelled apart.
- JavaScript numbers are unbounded integers in the model. Page arithmetic beyond 2^53 is not modelled.
- String lengths count characters, not UTF-16 code units.
- Routes.PatchFromBody: an `id` or `createdAt` key in a PUT body is not applied as a column update. The patch leaves both unchanged.
- Ordering.NewestFirst keeps the listing order of rows with equal `createdAt`. The database leaves that order unspecified, and stability itself is not proved.
- The photo preview (`FileReader`) is not modelled, and neither are toasts, navigation after a create, the DOM, styling or the login page.
- Storage.ProfileStore.GetAllProfiles: `count(*)` arrives as a number in the model. PostgreSQL's driver may deliver it as text.
- Creation times and the date strings the dashboard reads are parameters: the `now` of a create, the `stamp` of a sent row, and `time` for `new Date(...)`. Invalid dates (`NaN`) are not modelled.
- Profile JSON values are null or text. Numbers and nested objects are written as the text `String` gives them.
- ProfileCard.RouteSlug: wouter's case-insensitive matching, a trailing slash and URI decoding of the segment are not modelled.
- `window.location.origin`, the share buttons and the clipboard are not modelled. The profile URL is only the `/profile/<slug>` path.
