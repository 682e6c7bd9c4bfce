# Portfolio site record store — a Dafny model

This project models a static portfolio website. Its pages keep all of their
data in the browser's `localStorage` under four keys:

- `portfolioProjects`
- `portfolioSkills`
- `userReviews`
- `portfolioContactMessages`

The model covers these parts of the site:

- **Admin page.** Validates project images. Adds, edits, publishes, unpublishes and deletes projects. Adds, edits and deletes skills. Lists, read-marks and deletes contact messages. Lists and deletes reviews.
- **Public pages.**
  - The services page takes client reviews, prunes those older than ten days and shows the newest six.
  - The home page shows the newest three.
  - The projects page renders the published projects as cards and polls the store once a second.
  - The skills page seeds eighteen default skills, groups them into three fixed sections and polls the same way.
  - The contact page stores a message.
- **Shared script.** The typewriter role animation, the active navigation link and the footer subscription box.

How the model is built:

- The store is a class, `Storage.LocalStorage`, with one field per key. An absent key is `None`. A ghost write log records every `setItem`, so contracts can say whether a page writes at all.
- Page handlers that read and write the store are module-level methods that take the store as a parameter and say in `modifies` which of its keys they may change.
- Card and section rendering, sorting, filtering, expiry and text handling are pure functions.
- Clocks, generated ids and formatted dates are parameters.
- The ECMAScript built-ins the site relies on are written out in `JsText`: `trim`, `split`, `join`, `substring` and `toUpperCase`. The footer's `email.includes('@')` is sequence membership in `Script.Subscribe`, and `Admin.Contains` models the image check's regular-expression test.

Modules:

- `Wrappers` — `Option` and `Outcome`.
- `JsText` — the string built-ins.
- `Collections` — filter, remove-by-id, find-by-id and prefix helpers.
- `Records` — the four record types.
- `Storage` — the store.
- `Reviews` — the review logic shared by the services and home pages.
- One module per page: `Admin`, `Services`, `Home`, `Projects`, `Skills`, `Contact` and `Script`.

## Model

| member | source | states |
|---|---|---|
| Storage.LocalStorage.Projects | admin/admin.js:3-6 | an absent key reads as the empty list, a present one as its stored list |
| Storage.LocalStorage.Skills | admin/admin.js:423-426 | an absent key reads as the empty list, a present one as its stored list |
| Storage.LocalStorage.Reviews | admin/admin.js:720-723 | an absent key reads as the empty list, a present one as its stored list |
| Storage.LocalStorage.Messages | admin/admin.js:413-416 | an absent key reads as the empty list, a present one as its stored list |
| Storage.LocalStorage.SaveProjects | admin/admin.js:9-11 | the key now holds exactly the given list, and one write to that key is logged |
| Storage.LocalStorage.SaveSkills | admin/admin.js:428-430 | the key now holds exactly the given list, and one write to that key is logged |
| Storage.LocalStorage.SaveReviews | admin/admin.js:725-727 | the key now holds exactly the given list, and one write to that key is logged |
| Storage.LocalStorage.SaveMessages | admin/admin.js:418-420 | the key now holds exactly the given list, and one write to that key is logged |
| JsText.Trim | admin/admin.js:153 | the result is the slice of the input left after removing only whitespace at both ends; it has no whitespace at either end |
| JsText.TrimKeepsNonWhitespace | contact.js:24 | a non-whitespace character occurs in the trimmed string iff it occurs in the original |
| JsText.TrimOfTrimmed | skills.js:83 | trimming an already trimmed string changes nothing |
| JsText.TrimEmptyIffBlank | skills.js:83 | `trim` yields the empty string iff every character is whitespace |
| JsText.TrimSpaced | admin/admin.js:153 | a leading space makes no difference to the trimmed string |
| JsText.Split | admin/admin.js:153 | there is one more piece than separators, and no piece contains the separator |
| JsText.JoinSplit | script.js:84 | joining the pieces of a split with the separator gives back the original string |
| JsText.SplitJoin | admin/admin.js:268 | splitting a join of non-empty, separator-free pieces gives back the pieces |
| JsText.Substring | services.js:163 | `substring(0, end)` is the prefix up to the clamped end, and never longer than the string |
| JsText.ToUpper | services.js:163 | same length, each character mapped by the ASCII upper-case rule |
| Collections.Filter | projects.js:20 | exactly the elements satisfying the predicate are kept, and nothing else is added |
| Collections.FilterConcat | services.js:126 | filtering distributes over concatenation |
| Collections.FilterSwap | services.js:149-153 | two adjacent elements of which at most one passes can swap places without changing the filtered list |
| Collections.FilterIdempotent | services.js:126 | filtering twice is filtering once |
| Collections.FilterKeepsAll | services.js:128 | the filter keeps the list unchanged iff it keeps its length iff every element passes |
| Collections.RemoveById | admin/admin.js:252 | the result holds exactly the records whose id differs from the given one |
| Collections.RemoveByIdUnchangedIffAbsent | admin/admin.js:252 | removal leaves the list unchanged iff no record has that id |
| Collections.FindById | admin/admin.js:239 | the first index whose record has the id, or none when no record has it |
| Collections.Take | services.js:156 | `slice(0, n)` is a prefix of length min(n, length) |
| Reviews.IsReviewExpired | services.js:110-121 | a review without a truthy timestamp never expires; otherwise it expires iff it is more than ten days old |
| Reviews.ExpiryIsMonotone | services.js:110-121 | once expired, a review stays expired at every later time |
| Reviews.ExpiryBoundary | services.js:120 | exactly ten days old is still shown; one millisecond more is expired |
| Reviews.ActiveReviews | services.js:126 | exactly the unexpired reviews are kept |
| Reviews.ActiveReviewsIdempotent | services.js:124-133 | pruning an already pruned list removes nothing |
| Reviews.ActiveReviewsShorterIffExpired | services.js:128-130 | pruning shortens the list iff some review is expired |
| Reviews.CleanExpiredReviews | services.js:124-133 | returns the unexpired reviews; writes them back iff the count changed, otherwise writes nothing; afterwards nothing stored is expired |
| Reviews.InsertNewestFirst | services.js:149-153 | inserting into a newest-first list keeps it newest-first and adds exactly the one element |
| Reviews.SortNewestFirst | services.js:149-153 | the result is ordered by descending timestamp (missing counts as 0) and is a permutation of the input |
| Reviews.SortStable | services.js:149-153 | reviews with equal timestamps keep their relative order, as the stable `Array.prototype.sort` does |
| Reviews.SortKeepsNewestHeadFirst | services.js:149-153 | a review no older than any other that is put first stays first after sorting |
| Reviews.LatestReviews | services.js:149-156 | at most `limit` reviews, newest first, all drawn from the active list |
| Reviews.LatestAreNewest | services.js:149-156 | every review left out is no newer than any review shown |
| Reviews.LatestLedByNewest | services.js:149-156 | a review at least as new as all the others heads every non-empty listing |
| Reviews.LoadUserReviews | services.js:136-156 | shows the newest `limit` active reviews and leaves only active reviews stored, writing nothing when none expired |
| Reviews.Repeat | services.js:162 | `c.repeat(n)` has length n and every character is c |
| Reviews.Stars | services.js:162-175 | five characters: `rating` filled stars followed by empty ones; the string itself is not interpolated, and the template draws the same split as `rating` filled and `5 - rating` empty star icons |
| Reviews.FirstCharsOfNonEmpty | services.js:163 | one initial per non-empty word, each the first character of its word |
| Reviews.Initials | services.js:163 | at most two initials, the upper-cased first characters of the first non-empty words of the name |
| Admin.ContainsIffInfix | admin/admin.js:40 | the unanchored pattern test holds iff the pattern occurs at some position of the MIME type |
| Admin.ImageCheck | admin/admin.js:26-44 | rejects a missing file, then a file over 5 MiB, then a type containing none of the three image patterns, and passes otherwise; each iff its guard holds |
| Admin.Tags | admin/admin.js:153 | one tag per comma-separated piece: tag i is the trim of piece i, and no tag contains a comma |
| Admin.TagsOfPrefix | admin/admin.js:153 | a comma-free text before the first comma becomes the first tag, trimmed |
| Admin.TagsTextRoundTrip | admin/admin.js:268 | refilling the form with `tags.join(', ')` (`Admin.TagsText`) and re-splitting gives back trimmed, comma-free tags |
| Admin.ResubmitKeepsTags | admin/admin.js:153 | submitting the form that `editProject` refilled reproduces the tags the first submission produced |
| Admin.OrNull | admin/admin.js:155-156 | `x \|\| null` is absent iff the string is empty, and otherwise the string itself |
| Admin.NewProject | admin/admin.js:148-159 | the record has the form's title and description, the parsed tags, the image only when one was chosen, each link only when non-empty (else `null`), and is published iff the checkbox is `on` |
| Admin.SubmitProject | admin/admin.js:134-168 | a social project without an image is refused and nothing is written; otherwise the new project is prepended; social projects keep their images |
| Admin.Toggled | admin/admin.js:239-242 | only the first record with the id changes, and only its published flag, which is negated |
| Admin.ToggledTwice | admin/admin.js:242 | toggling the same id twice restores the list |
| Admin.TogglePublish | admin/admin.js:237-247 | writes the toggled list iff some project has the id, otherwise writes nothing |
| Admin.DeleteProject | admin/admin.js:249-257 | stores the list without the id, so no project with that id remains |
| Admin.EditProject | admin/admin.js:259-316 | the loaded project is the first stored one with the id, which is removed from the store; nothing is loaded or written when no project has it |
| Admin.GetCategoryName | admin/admin.js:319-327 | the display name of a known category, otherwise the category itself |
| Admin.SkillIcon | admin/admin.js:471 | a trimmed icon class, or the default `fas fa-code` when the field is empty |
| Admin.NewSkill | admin/admin.js:472-478 | the record takes the form's fields and the trimmed-or-default icon |
| Admin.SubmitSkill | admin/admin.js:481-487 | appends the new skill and writes the list |
| Admin.EditSkill | admin/admin.js:552-579 | the loaded skill is the first stored one with the id, which is removed from the store; nothing is loaded or written when no skill has it |
| Admin.DeleteSkill | admin/admin.js:581-589 | stores the list without the id |
| Admin.AllRead | admin/admin.js:631-637 | every message is marked read and nothing else changes |
| Admin.AllReadUnchangedIffNoneUnread | admin/admin.js:630-642 | marking all read changes nothing iff no message was unread |
| Admin.MarkAllRead | admin/admin.js:630-637 | the loop marks every message read and reports an update iff some message was unread |
| Admin.LoadContactMessages | admin/admin.js:623-642 | shows all messages as read; writes back iff some message was unread |
| Admin.DeleteMessage | admin/admin.js:709-717 | removes the id and then, on reload, marks the rest read; one write for the save, and a second one exactly when a remaining message was unread |
| Admin.LoadReviews | admin/admin.js:730-755 | lists every stored review, newest first, without pruning |
| Admin.DeleteReview | admin/admin.js:796-804 | stores the reviews without the id |
| Services.NewReview | services.js:80-93 | the record takes the form's fields with role and project defaults and the submission time as timestamp, so it is not expired when made |
| Services.NewReviewLifetime | services.js:92 | a new review expires exactly when more than ten days have passed since submission |
| Services.SaveReview | services.js:65-69 | prepends the review and writes the list |
| Services.LoadServicesReviews | services.js:136-156 | the newest six active reviews |
| Services.SubmitReview | services.js:74-106 | stores the new review ahead of the active ones; the page then shows between one and six reviews, the new one first when no stored review is newer |
| Services.NewReviewLeads | services.js:92-105 | a review stamped with the current clock, added to reviews none newer than it, is the first one the page shows |
| Home.LoadHomeReviews | home.js:83-105 | the newest three active reviews, pruning as on the services page |
| Home.HomeIsPrefixOfServices | home.js:105 | the home page's three reviews are the first three of the services page's six |
| Contact.NewMessage | contact.js:21-29 | name, e-mail, subject and message are the trims of the form's fields, the message is marked read (`read: true`), and the e-mail keeps its non-whitespace characters |
| Contact.SaveContactMessage | contact.js:10-14 | prepends the message and writes the list |
| Contact.SubmitContact | contact.js:38-40 | after the delayed save, the store holds the new message first and one more message |
| Contact.SubmittedMessageNeedsNoRepair | contact.js:28 | a message stored as read never triggers the admin's read-repair write |
| Projects.PublishedProjects | projects.js:20 | exactly the published projects |
| Projects.PublishedOfConcat | projects.js:20 | the published filter distributes over concatenation |
| Projects.PublishedAfterPrepend | projects.js:20 | a new project adds a published card iff it is published |
| Projects.GradientClass | projects.js:8-11 | always one of the six gradient classes |
| Projects.GradientPeriod | projects.js:8-11 | the classes repeat with period six and differ within any six consecutive indices |
| Projects.CardImageFor | projects.js:52-57 | the stored image iff the project has a truthy image, else the gradient for its index |
| Projects.CardLinks | projects.js:60-70 | a link block iff some link is truthy; it holds exactly the truthy links, one entry each, with the live link before the GitHub link |
| Projects.CardFor | projects.js:46-89 | the card carries the project's category, title, description, tags, image choice and links |
| Projects.Cards | projects.js:35-38 | one card per published project, in order, each rendered with its index |
| Projects.CardsPlaceholders | projects.js:35-57 | placeholder cards fewer than six apart never share a gradient |
| Projects.FilterShowsCategory | projects.js:128-131 | under `all` every card stays visible (`Projects.VisibleCards`, the cards the filter leaves shown); under any other filter the visible cards are exactly the cards of the published projects of that category, in stored order, at their grid positions |
| Projects.GridAfterLoad | projects.js:14-43 | with published projects the grid is rebuilt; with none the old cards stay |
| Projects.NoReloadAfterRender | projects.js:206-213 | after a render with published projects, the poll does not reload |
| Projects.StaleGridReloadsForever | projects.js:22-26 | with stale cards and nothing published, the poll reloads on every tick and the reload changes nothing |
| Projects.StaleGridExample | projects.js:22-26 | rendering one published project and then unpublishing it leaves a grid the poll reloads forever |
| Projects.GridAfterLoadCleared | projects.js:22-26 | a load that also clears the grid renders exactly the published cards, after which the poll is quiet |
| Projects.ShouldReloadProjects | projects.js:208-211 | the poll's test fires iff the grid's card count differs from the number of cards a fresh render produces |
| Projects.PollProjects | projects.js:206-214 | a tick reloads the grid iff the test fires; afterwards the counts agree unless nothing is published and the old cards stayed |
| Projects.ReloadOnNewProject | projects.js:206-213 | on a settled page, a prepended project triggers a reload iff it is published |
| Skills.DecimalString | skills.js:11-33 | a non-empty string of decimal digits |
| Skills.DecimalTwoDigits | skills.js:11-33 | two-digit numbers are written as their tens and units digits |
| Skills.DecimalTeens | skills.js:11-33 | the numbers 10 to 19 are written as a one followed by their units digit |
| Skills.DefaultSkillIds | skills.js:11-33 | eighteen defaults with ids "1" to "18" in order |
| Skills.DefaultSkillCategories | skills.js:11-33 | six frontend, six backend and six design defaults, all between 75 and 95 percent |
| Skills.Seeded | skills.js:8-36 | an empty store gets the defaults; a non-empty one is left alone |
| Skills.SeededIdempotent | skills.js:8-36 | seeding twice is seeding once |
| Skills.InitializeDefaultSkills | skills.js:8-36 | writes the defaults iff the stored list is empty; afterwards the list is never empty |
| Skills.BucketMembers | skills.js:62-66 | a category's list holds exactly the skills of that category |
| Skills.BucketIsFilter | skills.js:62-66 | a category's list is the stored list filtered by category, so it keeps the stored order |
| Skills.BucketSnoc | skills.js:61-67 | appending a skill extends its own category's bucket only |
| Skills.BucketOfAbsent | skills.js:61-67 | a category no skill has gets an empty bucket |
| Skills.GroupByCategory | skills.js:61-67 | the loop builds exactly the grouping: a key for each category that occurs, holding that category's skills in stored order |
| Skills.GroupingSnoc | skills.js:62-66 | one loop step, pushing a skill onto its category's list (created empty when missing), turns the grouping of the skills before it into the grouping of the longer list |
| Skills.GroupingNonEmpty | skills.js:62-66 | no key of the grouping holds an empty list |
| Skills.CategoriesSnoc | skills.js:62-66 | a new skill adds exactly its own category to the set of keys |
| Skills.IconClass | skills.js:83 | the trimmed icon when it is not blank, else `fas fa-code` |
| Skills.IconOfSubmittedSkill | skills.js:83 | the icon the admin stored renders as the trimmed input, or the default when the input is blank |
| Skills.Items | skills.js:81-96 | one item per skill in the bucket, in order |
| Skills.SectionsInOrder | skills.js:71-101 | every section is the full section (title, icon, items of its bucket) of one of the first n categories and that bucket is not empty; sections come in strictly increasing category order; every such category with a non-empty bucket has a section |
| Skills.SectionsOverInOrder | skills.js:71-101 | the same for any list of distinct category keys, in the list's order |
| Skills.IndexOf | skills.js:71 | the position of the first occurrence of a key, or the length when it does not occur |
| Skills.BucketSizes | skills.js:71-101 | the three sections together hold exactly the skills of known categories |
| Skills.RenderedCount | skills.js:71-101 | the rendered item count equals the number of skills with a known category |
| Skills.RenderSections | skills.js:71-101 | the loop over the category keys builds exactly the sections the specification function describes |
| Skills.LoadSkills | skills.js:55-107 | seeds when empty and renders the sections of the stored skills |
| Skills.PollSkills | skills.js:222-230 | a tick runs `loadSkills` iff the rendered item count differs from the stored skill count (the test `Skills.ShouldReloadSkills`), and then the poll stays quiet iff every skill has a known category; otherwise nothing changes |
| Skills.ReloadAfterRenderIffUnknown | skills.js:222-230 | after a render the poll reloads iff some skill has a category outside the three sections |
| Script.Role | script.js:116 | the role picked by any counter has at least two characters, which is what lets a word be typed and deleted |
| Script.RoleCycle | script.js:116 | the role list repeats every five words |
| Script.Visible | script.js:117-119 | typing shows a prefix one longer than the index; deleting shows one shorter |
| Script.Advance | script.js:115-139 | a full word switches to deleting after the word hold; an empty one moves to the next role after the gap hold; otherwise the index moves one step at the typing or deleting speed |
| Script.AdvanceKeepsReachable | script.js:115-139 | every tick keeps the character index inside the current word, and at least 1 while deleting |
| Script.TypingPhase | script.js:136-138 | typing from any index reaches the last index of the word |
| Script.DeletingPhase | script.js:136-138 | deleting from any index reaches index one |
| Script.TypeOut | script.js:123-127 | typing out a word ends in the deleting state at its last index |
| Script.DeleteOut | script.js:129-134 | deleting a word ends at the next role with index one |
| Script.WordCycle | script.js:115-139 | each later word takes exactly twice its length minus two ticks |
| Script.FirstWord | script.js:106-139 | the first word takes twice its length minus one ticks |
| Script.Typewriter.Tick | script.js:115-139 | the displayed text, the new state and the delay are those of one `Advance` step, and the text is always a prefix of the current role |
| Script.LastSegment | script.js:84 | the result contains no `/` |
| Script.LastSegmentIsTail | script.js:84 | the last segment is the longest `/`-free tail of the path, and it is empty iff the path is empty or ends in `/` |
| Script.CurrentPage | script.js:84 | the last segment, or `index.html` when it is empty |
| Script.CurrentPageOfDirectory | script.js:84 | a directory path selects `index.html` |
| Script.MarkActiveLinks | script.js:85-91 | a link is active iff its href equals the current page |
| Script.AtMostOneActive | script.js:85-91 | with distinct hrefs, at most one link is active |
| Script.Subscribe | script.js:156-164 | accepted iff the input contains `@`, and then the input is cleared; otherwise the input is kept. Trimming cannot remove an `@` |

## Left out

- Rendering: the HTML strings, `innerHTML`, animations, notifications, the scroll-to-form and the image modal are not modelled. Cards and sections are modelled as values carrying what the markup shows.
- The password gate with `sessionStorage`, tab switching and the icon preview warning are not modelled.
- `FileReader` is not modelled: base64 conversion and its "Error reading file" path are out. `Admin.ImageCheck` covers only the three checks before the read.
- JSON parsing and serialisation are not modelled. A stored list is its value; a corrupt stored value, which the source never catches, is not modelled.
- Generated ids, `Date.now()`, `Math.random()` and date formatting are not modelled. They are parameters.
- `parseInt` and `NaN` are not modelled: the review rating and the skill percentage come from the forms as integers.
- Storage.LocalStorage.SaveProjects, SaveSkills, SaveReviews, SaveMessages: a `setItem` that fails with `QuotaExceededError` is not modelled. A project with a large base64 image can exceed the browser's quota; in the site the write is then lost and the handler stops with an uncaught exception, while in the model every save succeeds.
- Reviews.Stars: requires a rating from 0 to 5, because `repeat` throws outside that range.
- Reviews.CleanExpiredReviews, Reviews.LoadUserReviews, Services.SubmitReview: one `now` is used for the whole pruning pass and for the submission. The site reads a fresh clock inside every `isReviewExpired` call (services.js:116), separately from the submission time (services.js:79). At a ten-day expiry the few milliseconds between those reads matter only for a review that is exactly at the boundary.
- Reviews.IsReviewExpired: the age is compared in integer milliseconds (`now - t > 864000000`) rather than as a floating-point day count. For integer millisecond inputs the two agree.
- JsText.ToUpper: upper-cases ASCII letters only; the full Unicode case mapping of `toUpperCase` is not modelled.
- Strings are sequences of Unicode scalar values. UTF-16 code units (`n[0]` on an astral character) are not modelled.
- Object-literal lookups are modelled as maps. Collisions with `Object.prototype` names (a category called `constructor`) are not modelled.
- Confirmation dialogs are not modelled. The delete actions model the confirmed branch; a cancelled dialog changes nothing.
- Timers, `storage` events and cross-tab interleavings are not modelled: the 600 ms typewriter start, the one-second contact delay and lost updates between two open tabs.
- The home page's early return when its review elements are missing is not modelled.
- Duplicated code is modelled once. `isReviewExpired`, `cleanExpiredReviews` and the sort are duplicated between the services and home pages. `initializeDefaultSkills` is duplicated between the admin and skills pages.
- Admin list rendering (`loadProjectsList`, `loadSkillsList`) is not modelled beyond reading the store.

## Findings

| source | as written | input that shows it | evidently intended | confidence | as-written member | corrected member |
|---|---|---|---|---|---|---|
| projects.js:22-26 | when no project is published, `loadProjects` returns before clearing the grid, so the old cards stay; the one-second poll (projects.js:206-213) compares their count with zero and reloads on every tick | publish one project, open the projects page, then unpublish it in the same browser | the grid is emptied, so the poll settles | medium, not executed | Projects.StaleGridExample | Projects.GridAfterLoadCleared |
