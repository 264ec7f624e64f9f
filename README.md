# Volunteer Link — a verified model of the browser-side store and two page computations

Volunteer Link is a small volunteering site. It has no server: its data-access layer, `src/lib/storage.ts`, keeps
three slots in the browser's key-value storage and acts as the backend. The slots are:

- the user list;
- the project catalog, which may be absent until it is first seeded;
- a snapshot of the signed-in user (the session).

This project models that layer as a Dafny class, `Storage.Store`. The class has one field per slot, and there is
one method per operation of `auth` and `projects`. Each method states the exact new state of the slots it changes
and what it returns. On top of that, the model proves these properties:

- the account invariant: distinct emails and identifiers, duplicate-free joined lists, and the session is a stored
  user;
- the capacity invariant `volunteers <= maxVolunteers` is kept by `applyToProject`; `create` and `update` do not
  check it, and store whatever counts they are given;
- round trips between operations: login after signup, `getById` after `create` or `delete`, a second application
  to the same project.

Two pieces of list logic from the pages are modelled as functions with lemmas:

- the catalog page's search/category filter and its category list (`src/pages/Projects.tsx`);
- the dashboard's "my projects" selection, its impact figures, and the comma-separated skills/interests parsing of
  the profile form (`src/pages/Dashboard.tsx`).

Modules:

- `Wrappers`: `Option`.
- `Lists`: JavaScript's `find`, `findIndex`, `filter`, and `Array.from(new Set(...))`, with their specifications.
- `Strings`: ASCII `toLowerCase`, `includes`, ECMAScript `trim`, and `split`/`join` on one character.
- `Records`: `User`, `Project`, the partial updates, and the `{ ...a, ...b }` merge.
- `Seed`: the three sample projects.
- `Storage`: the store.
- `ProjectsPage` and `DashboardPage`: the two pages.

Behaviour of the code that is easy to miss, which the model follows as written:

- **Seeding on failure.** `applyToProject` calls `getById`, which seeds an absent catalog, before it checks
  capacity and membership. A failed application with a session present can therefore still write the seed
  catalog. `Storage.Store.ApplyToProject` states exactly that.
- **Login error.** A failed login reports `'Invalid credentials'`.
- **User write-back.** `updateUser` writes back only when some stored user has the session's identifier.
  Otherwise only the session changes.
- **Delete.** `delete` removes every project with the identifier, not just one.
- **No role check.** The store does no role check. Only the admin page's UI gates catalog changes, so the model
  has no authorization either.
- **Categories named "all".** `categories` lists `'all'` first and then each distinct category once. A project
  whose category is literally `'all'` therefore makes `'all'` appear twice. Only the part after the first entry is
  duplicate-free.

## Model

| member | source | states |
|---|---|---|
| Records.MergeUser | src/lib/storage.ts:134 | every field of `{ ...currentUser, ...updates }` is the update's value when it is given and the old value otherwise |
| Records.MergeProject | src/lib/storage.ts:168 | the same field-by-field override for all thirteen project fields |
| Records.MergeUserEmpty | src/lib/storage.ts:134 | merging an empty update gives the user back unchanged |
| Records.MergeUserIdempotent | src/lib/storage.ts:134 | merging the same update twice is merging it once |
| Records.MergeVolunteers | src/lib/storage.ts:188 | the `{ volunteers: n }` update changes the volunteer count and nothing else |
| Records.MergeJoinedProjects | src/lib/storage.ts:189 | the `{ joinedProjects }` update changes the joined list and nothing else |
| Records.WithId | src/lib/storage.ts:158 | `{ ...project, id }` carries the given identifier, and dropping the identifier gives back exactly the fields passed to `create` |
| Seed.SeedProjects | src/lib/storage.ts:39-85 | the seed is three projects with identifiers "1", "2", "3", each within capacity |
| Lists.FindIndex | src/lib/storage.ts:137 | `findIndex` returns -1 exactly when nothing matches; otherwise the index of a match with no match before it |
| Lists.Find | src/lib/storage.ts:93 | `find` returns nothing exactly when no element matches; otherwise the element at `findIndex` |
| Lists.Filter | src/lib/storage.ts:175 | `filter` keeps the elements that pass the test, in their original order: each passing element as many times as it occurs, and no failing one; it keeps everything when all pass |
| Lists.Unique | src/pages/Projects.tsx:21 | `Array.from(new Set(xs))` has no duplicates and holds exactly the elements of `xs` |
| Lists.UniqueInFirstOccurrenceOrder | src/pages/Projects.tsx:21 | the distinct elements come out in the order of their first occurrence in `xs` |
| Lists.IndexOf | src/pages/Projects.tsx:21 | the first-occurrence index used to state that order: -1 exactly when the element is absent |
| Lists.FilterSameTest | src/pages/Dashboard.tsx:31 | two tests that agree on every element filter the same list |
| Lists.FindAppended | src/lib/storage.ts:93 | `find` returns an appended element when nothing before it matches |
| Strings.Lower | src/pages/Projects.tsx:15-16 | `toLowerCase` keeps the length, turns each ASCII capital into its own lower-case letter (32 code points on), and keeps every other character |
| Strings.LowerIdempotent | src/pages/Projects.tsx:15-16 | lower-casing twice is lower-casing once |
| Strings.Includes | src/pages/Projects.tsx:15-16 | `includes` holds for the empty term, and never for a term longer than the text |
| Strings.IncludesIffOccurs | src/pages/Projects.tsx:15-16 | `includes` holds exactly when the term occurs at some position of the text |
| Strings.IncludesEmpty | src/pages/Projects.tsx:15-16 | every text includes the empty term |
| Strings.TrimStart | src/pages/Dashboard.tsx:39-40 | the leading white space of `trim`: a suffix of the text made by dropping only white space, starting with no white space |
| Strings.TrimEnd | src/pages/Dashboard.tsx:39-40 | the trailing white space of `trim`: a prefix of the text made by dropping only white space, ending with no white space |
| Strings.Trim | src/pages/Dashboard.tsx:39-40 | `trim` neither starts nor ends with white space, is a prefix of the text with its leading white space removed, and everything cut from the end is white space |
| Strings.TrimIdempotent | src/pages/Dashboard.tsx:39-40 | trimming a trimmed string changes nothing |
| Strings.TrimAddsNothing | src/pages/Dashboard.tsx:39-40 | a character absent from the text is absent from its trimmed form |
| Strings.TrimSpacePrefix | src/pages/Dashboard.tsx:39-40 | a leading white-space character makes no difference to `trim` |
| Strings.Split | src/pages/Dashboard.tsx:39-40 | `split(',')` yields at least one piece, and no piece contains the separator |
| Strings.Join | src/pages/Dashboard.tsx:139 | `join(sep)` of no pieces is empty, of one piece is that piece, and of more starts with the first piece followed by the separator |
| Strings.JoinSplit | src/pages/Dashboard.tsx:39-40 | joining the pieces of a split with the separator gives back the text |
| Strings.SplitJoin | src/pages/Dashboard.tsx:39-40 | splitting the join of separator-free pieces gives back the pieces |
| Storage.NewUser | src/lib/storage.ts:96-105 | the signed-up record is a volunteer with the given identifier, email and name, an empty bio, and no skills, interests or projects |
| Storage.CanApply | src/lib/storage.ts:180-186 | an application goes ahead only with a session, a catalog project with that identifier and a free place, and an identifier the user has not joined; with no session or no such project it never does |
| Storage.UpdatedCatalog | src/lib/storage.ts:164-171 | the catalog `update` leaves has as many projects as before; which ones change is stated by `UpdateTouchesFirstMatchOnly` |
| Storage.UpdatedUsers | src/lib/storage.ts:136-140 | the user list the write-back leaves has as many users as before; which one changes is stated by `UpdateUserTouchesFirstMatchOnly` |
| Storage.WithoutProject | src/lib/storage.ts:173-177 | no project with the identifier remains, every other project remains in order as often as it occurred, and an absent identifier changes nothing |
| Storage.UpdateTouchesFirstMatchOnly | src/lib/storage.ts:164-171 | `update` leaves an unknown identifier's catalog as it was and changes only the first match; afterwards `getById` returns the merged project |
| Storage.UpdateUserTouchesFirstMatchOnly | src/lib/storage.ts:136-141 | the write-back replaces the first user with the session's identifier and no other; with no such user the list stays as it was |
| Storage.OneMoreVolunteer | src/lib/storage.ts:182-188 | an application to a project with a free place gives it exactly one more volunteer, leaves projects with other identifiers alone, and keeps the catalog within capacity |
| Storage.ReplaceSessionUser | src/lib/storage.ts:131-142 | writing a key-preserving update of the session user back keeps emails and identifiers unique, joined lists duplicate-free, and the session among the stored users |
| Storage.AppendFreshKeepsNoDuplicates | src/lib/storage.ts:186-189 | appending a project not yet joined keeps the joined list duplicate-free |
| Storage.SignedUpUserLogsIn | src/lib/storage.ts:91-120 | after a signup with an unused email, login with that email finds the new user |
| Storage.CreatedProjectFound | src/lib/storage.ts:151-162 | a project created under an unused identifier is what `getById` returns |
| Storage.DeletedProjectGone | src/lib/storage.ts:151-177 | after `delete`, `getById` finds nothing for the identifier |
| Storage.Store.constructor | src/lib/storage.ts:30-34 | the store starts from whatever the three slots hold |
| Storage.Store.InitializeStorage | src/lib/storage.ts:37-88 | an absent catalog becomes the seed; a present one, even an empty list, is left alone |
| Storage.Store.Signup | src/lib/storage.ts:91-110 | fails with "Email already exists" and changes nothing exactly when the email is taken; otherwise appends the new volunteer and makes it the session; emails stay distinct, and the account invariant holds given a fresh identifier |
| Storage.Store.Login | src/lib/storage.ts:112-120 | fails with "Invalid credentials" and keeps the session exactly when no user has the email; otherwise the session becomes the first such user; the user list is never written |
| Storage.Store.Logout | src/lib/storage.ts:122-124 | the session is absent afterwards, whatever it was |
| Storage.Store.GetCurrentUser | src/lib/storage.ts:126-129 | returns the session and changes nothing |
| Storage.Store.UpdateUser | src/lib/storage.ts:131-142 | without a session nothing changes; otherwise the session becomes the merge, the same record replaces the first stored user with its identifier, and a key-preserving update keeps the account invariant |
| Storage.Store.GetAll | src/lib/storage.ts:146-149 | returns the catalog as read (the seed when absent) and leaves exactly that stored |
| Storage.Store.GetById | src/lib/storage.ts:151-154 | returns the first project with the identifier, after seeding |
| Storage.Store.Create | src/lib/storage.ts:156-162 | appends the draft under the fresh identifier at the end and returns it; earlier projects are unchanged |
| Storage.Store.Update | src/lib/storage.ts:164-171 | the catalog becomes the one `UpdatedCatalog` describes: the first match merged, everything else as read |
| Storage.Store.Delete | src/lib/storage.ts:173-177 | the catalog becomes the read catalog without the identifier's projects |
| Storage.Store.Enrol | src/lib/storage.ts:188-189 | the two writes of a successful application: the project's update and the joined-list update, keeping both invariants |
| Storage.Store.ApplyToProject | src/lib/storage.ts:179-191 | returns true exactly when there is a session, the project exists with a free place and is not joined yet; on failure users and session are unchanged and only seeding may happen; on success one more volunteer and the identifier appended once, after which a second application is refused; both invariants are kept |
| ProjectsPage.MatchesSearch | src/pages/Projects.tsx:15-16 | the case-insensitive title-or-description search: an empty term matches every project, and a match needs a title or description at least as long as the term |
| ProjectsPage.MatchesCategory | src/pages/Projects.tsx:17 | the filter "all" matches every project; any other filter matches exactly the projects of that category |
| ProjectsPage.FilteredProjects | src/pages/Projects.tsx:14-19 | the filtered list is an order-preserving subsequence of the catalog, and a project is in it exactly when its lower-cased title or description includes the lower-cased term and the filter is "all" or its category; a matching project occurs as often as in the catalog |
| ProjectsPage.UnfilteredListsAll | src/pages/Projects.tsx:14-19 | an empty search with "all" lists the whole catalog in order |
| ProjectsPage.CategoryOf | src/pages/Projects.tsx:21 | `map(p => p.category)`: one category per project, position by position |
| ProjectsPage.Categories | src/pages/Projects.tsx:21 | "all" first, then distinct categories only, covering every project's category and nothing else |
| ProjectsPage.CategoriesInFirstOccurrenceOrder | src/pages/Projects.tsx:21 | the categories after "all" follow the order in which the catalog first uses them |
| ProjectsPage.AfterAllInFirstOccurrenceOrder | src/pages/Projects.tsx:21 | the same order fact for any list with a head put in front |
| DashboardPage.MyProjects | src/pages/Dashboard.tsx:31 | exactly the catalog projects whose identifier the user has joined, in catalog order, each as often as in the catalog |
| DashboardPage.StaleIdIgnored | src/pages/Dashboard.tsx:31 | a joined identifier that names no catalog project changes nothing |
| DashboardPage.HoursVolunteered | src/pages/Dashboard.tsx:77-82 | three hours per project found, so a multiple of 3 at most three times the catalog size, and zero exactly when no catalog project is joined |
| DashboardPage.TrimAll | src/pages/Dashboard.tsx:39-40 | `map(s => s.trim())` trims each piece in place |
| DashboardPage.ParseTags | src/pages/Dashboard.tsx:39-40 | the parsed tags are non-empty, trimmed and comma-free, appear in input order, and are exactly the non-empty trimmed pieces, a repeated piece kept as often as it was typed |
| DashboardPage.PiecesAreTags | src/pages/Dashboard.tsx:39-40 | every non-empty trimmed piece of a comma split is such a tag |
| DashboardPage.ParseEmpty | src/pages/Dashboard.tsx:39-40 | an empty box parses to no tags |
| DashboardPage.JoinCommaSpace | src/pages/Dashboard.tsx:139 | joining with ", " is joining with "," after putting a space before every piece but the first |
| DashboardPage.ParseShownTags | src/pages/Dashboard.tsx:139-148 | stored tags shown with `join(', ')` parse back to the same tags |
| DashboardPage.ShownText | src/pages/Dashboard.tsx:139-148 | a box shows what was typed once it is edited; untouched, it shows the stored tags joined so that they parse back to themselves |
| DashboardPage.ProfileUpdateAsWritten | src/pages/Dashboard.tsx:36-41 | the save as written: name and bio from the form, skills and interests parsed from the typed text; identifier, email, role and joined projects are not sent |
| DashboardPage.UntouchedTagsErasedAsWritten | src/pages/Dashboard.tsx:20-42 | as written, saving without editing the two boxes leaves the user with no skills and no interests |
| DashboardPage.ProfileUpdate | src/pages/Dashboard.tsx:36-41 | the save sends name and bio; an edited box sends the tags parsed from its typed text, an untouched one the tags parsed from the stored list as shown; all are well-formed tags; identifier, email, role and joined projects are not sent, so the store's account invariant is kept |
| DashboardPage.ProfileSaveKeepsAccount | src/pages/Dashboard.tsx:36-42 | after the merge, identifier, email, role and joined projects are the user's own, and name and bio are the form's |
| DashboardPage.UntouchedTagsKept | src/pages/Dashboard.tsx:139-148 | saving without editing the two boxes keeps the stored skills and interests |

## Left out

- JSON and browser storage: the slots are typed fields. An absent user slot (read with `|| '[]'`) is the empty
  list, so `users` is a plain sequence. The catalog slot is an `Option`, because its absence triggers seeding.
- Identifier generation with `Date.now().toString()`: the fresh identifier is a parameter of `Signup` and `Create`.
  Uniqueness is assumed only where a lemma or invariant asks for it.
- Passwords: `signup` and `login` accept them and ignore them, so the model has no password parameter.
- `toLowerCase` and `trim`: `toLowerCase` is modelled on ASCII letters only. `trim` removes the ECMAScript white-space
  and line-terminator characters. Locale rules and Unicode case mapping are not modelled.
- JavaScript numbers: `volunteers` and `maxVolunteers` are unbounded integers. Floating-point effects are not
  modelled.
- An explicit `undefined` in a partial update: in JavaScript it would overwrite a field. The model's updates
  either give a value or leave the field alone.
- Volunteer counts: the code does not keep `volunteers` equal to the number of users who joined. The seed starts
  at 12, 8 and 15 with no users, and `update` can set any count. Only the effect of one application is stated.
- React rendering, routing, toasts, dialogs and page reloads: presentation only. This also covers the admin page
  with its role gate and `parseInt` form parsing, the detail page, and the home page's `slice(0, 3)`.
- Storage.Store.Enrol: a proof step, not an operation of its own. It holds the two writes that end
  `applyToProject`, and its preconditions are the facts the checks before it have established.

## Findings

| source | as written | input that shows it | evidently intended | confidence | as-written member | corrected member |
|---|---|---|---|---|---|---|
| src/pages/Dashboard.tsx:39-40 | the save parses the `skills` and `interests` state, which stays `''` until the box is edited, while the boxes display `skills \|\| user.skills.join(', ')` (lines 139 and 148) | a user with skills ["Teaching"] and interests ["Education"] changes only the bio and saves: both boxes were never edited, so both lists are saved as [] | parse what the boxes display, so untouched tags are kept | not executed | DashboardPage.UntouchedTagsErasedAsWritten | DashboardPage.UntouchedTagsKept |
