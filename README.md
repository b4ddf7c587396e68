# Scheduler core: mock store, server actions, slugs, bookings split

A Dafny model of the logic of a small appointment scheduler. A host publishes
event types (title, slug, duration). Visitors book them. The host lists and
cancels bookings. The model covers four parts:

- **The mock store** (`lib/mock-db.ts`), module `MockDb`. Class `Store`
  holds the three collections (`users`, `eventTypes`, `bookings`) as
  sequence fields. Its constructor `Seeded` is the seed a missing data file
  is created with. The lookups are functions over the fields. The inserts
  and the delete are methods that reassign the fields. They assign
  `id = max(0, ids) + 1`, give each booking the uid `"uid-" + id`, and delete
  the first booking with a given id. The join behind `getBookingsForUser` is
  the function `BookingsForUser`, and `Store.GetBookingsForUser` applies it
  to the current collections.
- **The server actions** (`app/actions.ts`), module `Actions`. Each action
  is a method that drives a `Store` and returns the action's `success` flag.
  `createBooking` computes `endTime = startTime + duration * 60 * 1000` from
  the duration the caller passes. `cancelBooking` reports success whether or
  not the booking existed. `createEventType` stores user id 1 and turns a
  null description into `""`.
- **Slugs** (`app/event-types/new/components/EventTypeForm.tsx`), module
  `EventTypeForm`. `GenerateSlug` models `generateSlug`, and
  `SanitizeSlugInput` models the keystroke transform in `handleSlugChange`.
  Both are pure string functions.
- **The bookings page split** (`app/bookings/page.tsx`), module
  `BookingsPage`. `Upcoming` and `Past` split the bookings at `now`.

`Seqs` holds the JavaScript array operations the code is written with
(`findIndex`, `find`, `filter`). `Decimal` renders an id as decimal digits.

Timestamps are integer milliseconds. Strings are `seq<char>`.

Where a scheduler would be expected to enforce a rule, the code does not, and
the model follows the code:

- No booking-overlap check exists. Overlapping and identical slots are both
  stored (`Actions.OverlappingBookingsAccepted`).
- No slug-uniqueness check exists (`Actions.DuplicateSlugAccepted`).
- Cancelling an unknown id reports success. It is not a "not found" error.
- `endTime` comes from the duration the caller passes. The stored duration
  of the event type is not used.

Every booking `getBookingsForUser` returns is joined with one of the user's
event types, so a missing event type never produces "Unknown Event". An event
type with an empty title still does, because `""` is falsy in
`et?.title || "Unknown Event"` (`MockDb.ShownTitle`).

## Model

| member | source | states |
|---|---|---|
| `MockDb.Store.Seeded` | lib/mock-db.ts:42-50 | The initial store holds exactly user 1 "kavya" and event type 1 "30-min" (30 minutes, user 1), and no bookings. |
| `MockDb.Store.GetUser` | lib/mock-db.ts:71-76 | The result is null exactly when no user has that id. Otherwise it is the first stored user with that id. |
| `MockDb.Store.GetAllEventTypes` | lib/mock-db.ts:78-82 | Returns exactly the stored event types with that user id, each with its stored multiplicity. |
| `MockDb.Store.GetEventTypeBySlug` | lib/mock-db.ts:84-90 | Null when no user has the username. Otherwise, for the first such user, null exactly when that user has no event type with the slug, else the first such event type. |
| `MockDb.MaxOrZero` | lib/mock-db.ts:95 | `Math.max(0, ...ids)`: at least 0, at least every id, and either 0 or one of the ids. |
| `MockDb.NextId` | lib/mock-db.ts:105 | The new id is at least 1 and above every existing id, and it is 1 or one more than an existing id (so it is `max(0, ids) + 1`). |
| `MockDb.NextIdKeepsDistinct` | lib/mock-db.ts:95 | If a collection's ids are pairwise distinct, they stay distinct after the next id is appended. |
| `MockDb.Store.CreateEventType` | lib/mock-db.ts:92-100 | Appends the record with the next id, which exceeds every earlier id. Returns that record. Keeps ids distinct if they were. Leaves users and bookings unchanged. |
| `MockDb.Store.CreateBooking` | lib/mock-db.ts:102-114 | Appends the record with the next id and uid `"uid-" + id`. Earlier bookings stay unchanged and in order. Keeps ids distinct if they were. Leaves users and event types unchanged. |
| `Decimal.ToDecimal` | lib/mock-db.ts:109 | The rendering of an id is non-empty decimal digits with no leading zero, and reading it back gives the id. |
| `MockDb.Uid` | lib/mock-db.ts:109 | A uid is `uid-` followed by the id's decimal digits, with no leading zero, and those digits read back as the id. |
| `MockDb.UidInjective` | lib/mock-db.ts:109 | Two distinct ids never get the same uid. |
| `MockDb.ShownTitle` | lib/mock-db.ts:131 | The shown title is "Unknown Event" exactly when there is no event type or its title is empty (or literally "Unknown Event"). Otherwise it is the event type's title. |
| `MockDb.Enrich` | lib/mock-db.ts:125-131 | The view keeps the booking. Its event type is absent exactly when none of the given event types has the booking's event-type id, and otherwise it is the first that does. Its title is the shown title of that event type. |
| `MockDb.BookingsForUser` | lib/mock-db.ts:116-134 | The join never returns more entries than there are bookings, and every entry is a stored booking. The two lemmas below state the rest. |
| `MockDb.Store.GetBookingsForUser` | lib/mock-db.ts:116-134 | Returns exactly the stored bookings whose event type belongs to the user, in storage order and with their multiplicity. Each is joined with a stored event type of that user that has the booking's event-type id. |
| `MockDb.BookingsForUserSelects` | lib/mock-db.ts:116-123 | The bookings returned are exactly the stored bookings whose event type belongs to the user, in storage order, with their multiplicity. |
| `MockDb.BookingsForUserJoined` | lib/mock-db.ts:124-133 | Every returned booking is joined with a stored event type of that user with the booking's event-type id, and carries that event type's shown title. |
| `MockDb.Store.DeleteBooking` | lib/mock-db.ts:136-146 | Returns true exactly when some booking has the id. Then only the first such booking is removed and the rest keep their order. Otherwise nothing changes. |
| `MockDb.RemoveAtKeepsOthers` | lib/mock-db.ts:141 | `splice(k, 1)` shortens the list by one and removes exactly the element at `k`. Every other element keeps its relative position. |
| `Seqs.FindIndex` | lib/mock-db.ts:139 | `findIndex` returns -1 exactly when nothing matches. Otherwise it returns the first matching index. |
| `Seqs.Find` | lib/mock-db.ts:75 | `find` returns nothing exactly when nothing matches. Otherwise it returns the first match. |
| `Seqs.Filter` | lib/mock-db.ts:81 | `filter` keeps exactly the matching elements and is never longer than its input. |
| `Seqs.FilterMultiplicity` | lib/mock-db.ts:81 | `filter` keeps each matching element exactly as often as it occurs, and drops every other element. |
| `Seqs.FilterConcat` | lib/mock-db.ts:122-123 | `filter` keeps order: filtering a concatenation concatenates the filtered parts. |
| `Actions.EndTime` | app/actions.ts:23 | The booking lasts exactly `duration` whole minutes: the duration reads back from the two instants, and the end is after the start exactly when the duration is positive. |
| `Actions.NormaliseDescription` | app/actions.ts:76 | `description \|\| ""` gives "" exactly when the description is null or empty, and otherwise the description itself. |
| `Actions.CreateBooking` | app/actions.ts:15-42 | Always succeeds. Appends one booking with the given event-type id, name, email and start, and with `endTime = startTime + duration * 60000`. Changes nothing else. |
| `Actions.CancelBooking` | app/actions.ts:44-56 | Always succeeds. An absent id leaves the bookings unchanged. Otherwise the first booking with that id is removed and every other booking stays in order. |
| `Actions.CreateEventType` | app/actions.ts:65-90 | Always succeeds. Appends an event type for user 1 whose description is the input, or `""` when the input is null. Changes nothing else. |
| `Actions.OverlappingBookingsAccepted` | app/actions.ts:15-42 | On the seed store, 30-minute bookings at 10:00, 10:15 (overlapping) and 10:30 all succeed. They are stored with ids 1-3, uids "uid-1" to "uid-3" and end times 30 minutes after their starts. |
| `Actions.CancelAlwaysSucceeds` | app/actions.ts:44-56 | Cancelling an existing booking succeeds and removes it. Cancelling the same id again also succeeds. |
| `Actions.DuplicateSlugAccepted` | app/actions.ts:65-78 | On the seed store, two event types with the same slug both succeed. They are stored for user 1 under the distinct ids 2 and 3. |
| `EventTypeForm.LowerChar` | app/event-types/new/components/EventTypeForm.tsx:14 | The lowercased character is never upper case. Upper-case letters move down by 32 and other characters are unchanged. It is `[a-z0-9]` exactly when the input is an ASCII letter or digit. |
| `EventTypeForm.ToLower` | app/event-types/new/components/EventTypeForm.tsx:14 | Same length as the input, and no upper-case letter. Characters that are not upper case are unchanged. Upper-case ones become their lower-case letter. |
| `EventTypeForm.CollapseNonAlnum` | app/event-types/new/components/EventTypeForm.tsx:15 | The output uses only `[a-z0-9-]` and has no two hyphens in a row. It is empty only for empty input, and its first character is the input's first character or `-`. Where the hyphens go is stated by `CollapseAroundSeparator` and `CollapseNonAlnumSplit`. |
| `EventTypeForm.CollapseKeepsLast` | app/event-types/new/components/EventTypeForm.tsx:15 | The collapsed text ends in the input's last character when that is in `[a-z0-9]`, and in `-` otherwise. |
| `EventTypeForm.CollapseAroundSeparator` | app/event-types/new/components/EventTypeForm.tsx:15 | A character outside `[a-z0-9]` and the whole run around it become exactly one hyphen. It replaces the hyphen that ends the collapsed part before it, if any, and the part after it continues from its first letter or digit. |
| `EventTypeForm.CollapseNonAlnumSplit` | app/event-types/new/components/EventTypeForm.tsx:15 | A whole run of characters outside `[a-z0-9]`, with a letter or digit or an end on each side, becomes exactly one hyphen. Each side is collapsed as it would be on its own. |
| `EventTypeForm.CollapseFixesSlugChars` | app/event-types/new/components/EventTypeForm.tsx:15 | Text made only of `[a-z0-9-]` with no two hyphens in a row is left unchanged, and so is text made only of letters and digits. |
| `EventTypeForm.TrimLeading` | app/event-types/new/components/EventTypeForm.tsx:16 | The output is a suffix of the input that does not start with `-`, and everything cut off was `-`. |
| `EventTypeForm.TrimTrailing` | app/event-types/new/components/EventTypeForm.tsx:16 | The output is a prefix of the input that does not end with `-`, and everything cut off was `-`. |
| `EventTypeForm.GenerateSlug` | app/event-types/new/components/EventTypeForm.tsx:12-17 | Every slug uses only `a-z`, `0-9` and `-`. It neither starts nor ends with `-`, has no two hyphens in a row, and is no longer than the text. Where the hyphens go is stated by `GenerateSlugSplit`. |
| `EventTypeForm.GenerateSlugKeepsAlnums` | app/event-types/new/components/EventTypeForm.tsx:12-17 | The letters and digits of the slug are exactly the letters and digits of the lowercased text, in order. |
| `EventTypeForm.GenerateSlugEmptyIff` | app/event-types/new/components/EventTypeForm.tsx:15-16 | The slug is empty exactly when the text has no ASCII letter or digit. |
| `EventTypeForm.TrimLeadingCollapse` | app/event-types/new/components/EventTypeForm.tsx:15-16 | Stripping the leading hyphen after collapsing gives the same text as skipping the leading run before collapsing. |
| `EventTypeForm.GenerateSlugSkipsFirstRun` | app/event-types/new/components/EventTypeForm.tsx:12-17 | The slug is the collapsed text, starting from the first letter or digit of the lowercased text, with the trailing hyphen stripped. |
| `EventTypeForm.GenerateSlugSplit` | app/event-types/new/components/EventTypeForm.tsx:12-17 | Put a character that is not an ASCII letter or digit between two texts that each have a non-empty slug. The result's slug is the first slug, one hyphen, then the second slug. |
| `EventTypeForm.GenerateSlugFixesSlugs` | app/event-types/new/components/EventTypeForm.tsx:12-17 | A string that already has the slug shape is its own slug. |
| `EventTypeForm.GenerateSlugIdempotent` | app/event-types/new/components/EventTypeForm.tsx:44 | Applying `generateSlug` again on submit changes nothing. |
| `EventTypeForm.DropNonAlnumIsSuffix` | app/event-types/new/components/EventTypeForm.tsx:15 | The helper that skips a run keeps a suffix of its input and drops only characters outside `[a-z0-9]`. |
| `EventTypeForm.CollapseWhitespace` | app/event-types/new/components/EventTypeForm.tsx:31 | The output has no whitespace and is no longer than the input. It is empty only for empty input. It introduces no upper-case letter. What it keeps and where the hyphens go is stated by `CollapseWhitespaceFixes` and `CollapseWhitespaceSplit`. |
| `EventTypeForm.SanitizeSlugInput` | app/event-types/new/components/EventTypeForm.tsx:31 | The sanitised slug field has no upper-case letter, no whitespace, and is no longer than what was typed. Its value is stated by `SanitizeSlugInputNoWhitespace` and `SanitizeSlugInputSplit`. |
| `EventTypeForm.CollapseWhitespaceFixes` | app/event-types/new/components/EventTypeForm.tsx:31 | Text without whitespace is left unchanged. |
| `EventTypeForm.CollapseWhitespaceConcat` | app/event-types/new/components/EventTypeForm.tsx:31 | A boundary right after a non-whitespace character is never inside a run, so the two sides are collapsed separately. |
| `EventTypeForm.CollapseWhitespaceSplit` | app/event-types/new/components/EventTypeForm.tsx:31 | A whole run of whitespace, with a non-whitespace character or an end on each side, becomes exactly one hyphen. Each side is collapsed as it would be on its own. |
| `EventTypeForm.SanitizeSlugInputNoWhitespace` | app/event-types/new/components/EventTypeForm.tsx:31 | Text without whitespace is only lowercased. |
| `EventTypeForm.SanitizeSlugInputSplit` | app/event-types/new/components/EventTypeForm.tsx:31 | A whole run of whitespace between non-whitespace characters, or at an end, becomes exactly one hyphen. The text on each side is sanitised as on its own. |
| `EventTypeForm.SanitizeSlugInputIdempotent` | app/event-types/new/components/EventTypeForm.tsx:31 | Sanitising twice gives the same result as sanitising once. |
| `EventTypeForm.SanitizedThenGenerated` | app/event-types/new/components/EventTypeForm.tsx:31-44 | The slug submitted from the sanitised field equals the slug of the raw typed text, so the keystroke sanitiser never changes the final slug. |
| `BookingsPage.Upcoming` | app/bookings/page.tsx:11 | `upcoming` holds exactly the bookings that start at or after `now`. |
| `BookingsPage.Past` | app/bookings/page.tsx:12 | `past` holds exactly the bookings that start before `now`. |
| `Seqs.FilterSplit` | app/bookings/page.tsx:11-12 | Filtering by a test and by its negation splits a list: the two results together hold every element exactly as often. |
| `BookingsPage.UpcomingPastPartition` | app/bookings/page.tsx:11-12 | The two lists together hold every booking exactly as often as the full list does, and their lengths add up to its length. |
| `BookingsPage.InExactlyOne` | app/bookings/page.tsx:11-12 | Each booking is in exactly one list, and one starting exactly at `now` is upcoming. |
| `BookingsPage.SplitKeepsOrder` | app/bookings/page.tsx:11-12 | Both lists keep the original order: splitting a concatenation splits each part. |

## Left out

- File I/O in `readDb`/`writeDb` is not modelled. This covers reading and writing the JSON file, the swallowed read and write errors, and the empty-store fallback when the file cannot be read. The store is in-memory state whose initial value is the seed.
- Every call re-reads the file, so two concurrent requests can race and the last write wins. The model is sequential and does not capture this race.
- The `setTimeout` delays and the `async`/`await` structure are not modelled. They add latency only.
- The conversion between `Date` and ISO strings (lib/mock-db.ts:128-129) is not modelled. Timestamps are integer milliseconds throughout, so an invalid date (NaN, which lands in neither page list) cannot occur.
- JavaScript numbers are doubles. Ids, durations and timestamps are unbounded integers here. Rounding of large or fractional values is not modelled.
- Decimal.ToDecimal: renders only non-negative integers. JavaScript switches to exponent notation from 1e21 upward, and that is not modelled.
- EventTypeForm.LowerChar: lowercases ASCII only. Unicode `toLowerCase` also maps non-ASCII letters, and a few of them (for example U+0130) lowercase to an ASCII letter plus a combining mark. For such input the letters of a real slug can differ from the model's. `\s` is modelled with JavaScript's full whitespace set.
- The `try`/`catch` failure branches of the actions are not modelled. The in-memory store cannot throw, so `success: false` is never produced.
- `revalidatePath`, `redirect`, the React state hooks, the JSX rendering, date formatting and `parseInt` are not modelled. `createEventType` returns nothing on success and redirects, and the model reports that as `success = true`.
- `app/page.tsx` is not part of this model. It renders hard-coded data and a URL template.
- Overlap rejection, slug conflicts and "not found" on cancel are not modelled as enforced behaviour. The code implements none of them.
