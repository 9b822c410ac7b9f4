# Link lifecycle and dashboard list transforms of a URL shortener

This project models two parts of a URL shortener with click analytics.

The first part is the **management API handler** (`src/pages/api/analytics.ts`).
It serves the link store: list all links, list the ten most recently visited,
soft-delete, permanently delete, edit (short code and two dates, with a
uniqueness check on the short code), and restore a soft-deleted link within a
one-hour recovery window. Any other method is answered with 405.

The second part is the **dashboard's list logic** (`src/pages/analytics.js`).
It tags every link with how many links share its original URL, sorts the list
five ways, filters it by a case-insensitive search term, and updates the local
list after a successful edit or delete.

## How it is modelled

- `Links` holds the record: `Link` (id, original URL, short code, active flag,
  soft-delete flag and timestamp, expiration and scheduled dates, creation
  time, access count, visit log, and the sentinel field `q`).
  `StoreInvariant` states what the store keeps true:
  - every record is stored under its own id;
  - short codes are unique. This is an assumption about the schema: the
    model file with the collection's unique index is not part of this model;
  - `isDeleted` holds exactly when `deletedAt` is set.
- `AnalyticsApi` states each handler branch as a pure function from the old
  store to an `Outcome` (status, message, new store): `DeleteResult`,
  `EditResult`, `RestoreResult`. Their contracts give:
  - the status of every case;
  - the error precedence;
  - that a refused request changes nothing;
  - that a successful one changes only the target record, and only the
    fields the source writes;
  - that the store invariant is preserved.
  The class `LinkStore` holds the store as a mutable `map<Id, Link>`. Its
  methods (`Delete`, `Edit`, `Restore`, `Handle`) perform the same steps in
  place, and each is proved to end in exactly the state and response that the
  matching function gives. The two read-only queries (`ListAll`, `RecentTen`)
  scan the map in a loop and are specified by `IsListing` and `IsRecentTen`.
  `Edit` looks up the short code with a scanning `FindByShortenUrl`, as
  `findOne` does.
- `Lifecycle` relates several requests: restore undoes a soft delete inside the
  window and is refused after it, a second soft delete is refused, a
  permanently deleted id is gone for every later request, and an edit can be
  undone.
- `Dashboard` models the page's list logic. `AddDuplicateCounts` is a method
  with the source's two passes: a count map, then tagging. `SortUrls`,
  `Search`, `ApplyEdit` and `RemoveItem` are functions over sequences.
- `Sorting` is a stable insertion sort by an integer key in either direction.
  `Seqs` provides `Filter` (JavaScript `filter`). `Text` provides ASCII
  lower-casing and `includes`.

Time is an explicit parameter `now` in milliseconds; the handler's
`new Date()` becomes that parameter. The database is the in-memory map.
Requests are serialized: each request runs as one step on the map, with no
other request in between. The source's queries are atomic one at a time, but
a request makes several of them, so this is a stronger assumption than the
source gives (see "## Left out").

Two points follow the code rather than a reading of its API:
- A DELETE is permanent when the query's `action` is `"permanent"`
  (`src/pages/api/analytics.ts:46`). The query parameter `permanent` is read
  into a variable and never used.
- The recent-ten query filters on `accesses.lastAccessed` existing. The model
  assumes every record has that array, as a schema default of an empty array
  would give; the schema is not part of this model. So the model applies no
  filter (see "## Left out").
  The descending sort on the visit dates orders records by their latest visit;
  a record without visits sorts last (`Links.LastVisit` gives it -1, below
  every visit date).

## Model

| member | source | states |
|---|---|---|
| `AnalyticsApi.DeleteResult` | src/pages/api/analytics.ts:36-66 | No id gives 400. An unknown id gives 404. A soft delete of an already deleted record gives 400 "already been deleted". Status 200 holds exactly when the id exists and the delete is permanent or the record is not yet deleted. A refused delete leaves the store unchanged. A permanent delete removes exactly that key, whatever the record's delete state. A soft delete sets `isDeleted` and `deletedAt = now` on that record only, and leaves every other field and record unchanged. A success answers "URL permanently deleted" or "URL deleted successfully", according to the action. The store invariant is preserved. |
| `AnalyticsApi.EditResult` | src/pages/api/analytics.ts:68-102 | The checks come in order: id, then short code missing or falsy, then short code not a string, then taken by another record (deleted ones included), then 404. A 404 happens only when every validation has passed. Status 200 holds exactly when all checks pass and the id exists. A success overwrites only the short code and the two dates; an absent date becomes null. A 404 answers "URL not found" and a success "URL updated successfully". The store invariant is preserved, so short codes stay unique while requests are serialized. |
| `AnalyticsApi.RestoreResult` | src/pages/api/analytics.ts:104-134 | No id gives 400. An unknown id gives 404. Status 200 holds exactly when `deletedAt` is set and `now - deletedAt <= 3600000`; otherwise the answer is 400 and the store is unchanged. A success answers "URL restored successfully" and clears `deletedAt` and `isDeleted` on that record only. |
| `AnalyticsApi.RouteOf` | src/pages/api/analytics.ts:16-135 | Which branch a request takes. GET with action "recent-ten" takes the recent query, any other GET the listing, DELETE the delete, PUT the edit, POST only with action "restore" the restore. Every method other than GET, DELETE, PUT and POST-restore falls to 405. |
| `AnalyticsApi.Truthy` | src/pages/api/analytics.ts:74 | The falsy values are exactly `undefined`, `null`, `false`, `0` and `""`; everything else, objects included, is truthy. |
| `AnalyticsApi.TopOfSortedIsRecentTen` | src/pages/api/analytics.ts:19-21 | Take all records sorted by latest visit, descending, and keep the first ten. The result is min(10, n) distinct stored records in descending order, and no omitted record was visited later than a kept one. |
| `AnalyticsApi.LinkStore.FindAll` | src/pages/api/analytics.ts:32 | The scan over the collection returns every stored record exactly once. |
| `AnalyticsApi.LinkStore.ListAll` | src/pages/api/analytics.ts:30-34 | The GET listing holds exactly the records without the sentinel field `q`, each once. |
| `AnalyticsApi.LinkStore.RecentTen` | src/pages/api/analytics.ts:16-28 | The recent-ten answer satisfies `IsRecentTen`: bounded by 10, ordered by latest visit descending, and the true top ten. |
| `AnalyticsApi.LinkStore.FindByShortenUrl` | src/pages/api/analytics.ts:83 | Returns a stored record with the given short code, or nothing exactly when no record has it. |
| `AnalyticsApi.LinkStore.Delete` | src/pages/api/analytics.ts:36-66 | The in-place delete ends in the store and response that `DeleteResult` gives, and keeps the store invariant. |
| `AnalyticsApi.LinkStore.Edit` | src/pages/api/analytics.ts:68-102 | The in-place edit, using the `findOne` scan, ends in the store and response that `EditResult` gives, and keeps the store invariant. |
| `AnalyticsApi.LinkStore.Restore` | src/pages/api/analytics.ts:104-134 | The in-place restore ends in the store and response that `RestoreResult` gives, and keeps the store invariant. |
| `AnalyticsApi.LinkStore.Handle` | src/pages/api/analytics.ts:13-135 | Each route gets its branch's answer. The two GETs leave the store unchanged. An unhandled method or action gives 405 and changes nothing. |
| `Links.LatestVisit` | src/pages/api/analytics.ts:20 | The descending sort key is the largest visit date, or -1 for no visits: it bounds every visit date and is one of them. |
| `Sorting.Insert` | src/pages/analytics.js:192-206 | Inserting into an ordered list keeps it ordered and adds exactly that element. |
| `Sorting.Sort` | src/pages/analytics.js:192-206 | The sort returns a permutation of its input, ordered by the key in the requested direction. |
| `Sorting.PrefixDominates` | src/pages/api/analytics.ts:20-21 | In a descending list, nothing after position n has a larger key than anything before it. This is why `limit` after `sort` keeps the top records. |
| `Seqs.Filter` | src/pages/analytics.js:212-216 | The filter keeps exactly the elements satisfying the predicate, with their multiplicities. |
| `Seqs.FilterConcat` | src/pages/analytics.js:212-216 | Filtering distributes over concatenation, so the kept elements stay in input order. |
| `Seqs.FilterKeepsAll` | src/pages/analytics.js:212-216 | A filter that every element passes returns its input. |
| `Text.ContainsIffOccurs` | src/pages/analytics.js:214-215 | `includes` holds exactly when the term occurs as a contiguous slice. |
| `Text.ContainsEmpty` | src/pages/analytics.js:214-215 | Every string includes the empty string. |
| `Text.Lower` | src/pages/analytics.js:214-215 | `toLowerCase` keeps the length, leaves no ASCII capital, turns each capital into its lower-case letter and leaves every other character alone. |
| `Text.Contains` | src/pages/analytics.js:214-215 | `includes` holds when the term is a prefix, and only when the term is no longer than the string. |
| `Lifecycle.RestoreUndoesSoftDelete` | src/pages/api/analytics.ts:52-59 | A soft delete followed by a restore within one hour returns the store to exactly what it was. |
| `Lifecycle.RestoreRefusedAfterWindow` | src/pages/api/analytics.ts:118-133 | More than one hour after a soft delete, restore gives 400 and the record stays deleted. |
| `Lifecycle.RestoreRefusedWhenNotDeleted` | src/pages/api/analytics.ts:118-133 | Restoring a record that was never deleted gives 400 and changes nothing. |
| `Lifecycle.RecoveryWindowBoundary` | src/pages/api/analytics.ts:120 | The window is inclusive: 3600000 ms after deletion is restorable, 3600001 ms is not. 59 minutes is restorable, 61 minutes is not. |
| `Lifecycle.SoftDeleteTwiceRefused` | src/pages/api/analytics.ts:46-51 | A second soft delete of a record gives 400 "already been deleted" and changes nothing. |
| `Lifecycle.PermanentDeleteIsFinal` | src/pages/api/analytics.ts:61-65 | Permanent delete succeeds from either delete state. Afterwards the id is absent, a later delete or restore of it gives 404, and an edit of it cannot succeed. |
| `Lifecycle.EditOwnCodeAllowed` | src/pages/api/analytics.ts:83-88 | Re-saving a record's own non-empty short code succeeds. |
| `Lifecycle.EditOtherCodeRefused` | src/pages/api/analytics.ts:83-88 | A short code owned by a different record gives 400 "must be unique" and changes nothing. |
| `Lifecycle.EditUndo` | src/pages/api/analytics.ts:90-101 | Editing back to the previous short code and dates restores the store exactly. |
| `Dashboard.Occurrences` | src/pages/analytics.js:61-64 | The number of links with a given original URL is at most the length of the list. |
| `Dashboard.OccurrencesOfMember` | src/pages/analytics.js:60-69 | A listed link's own URL occurs at least once. |
| `Dashboard.AddDuplicateCounts` | src/pages/analytics.js:60-69 | Length and order are kept. Each item carries its own link, tagged with the number of input links sharing its original URL, which is at least 1. |
| `Dashboard.SortUrls` | src/pages/analytics.js:189-210 | `dateAsc`, `dateDesc`, `clicksAsc` and `clicksDesc` give a permutation, ordered by creation date or click count, ascending or descending. `duplicateAsc` keeps exactly the items with count > 1, ascending by count. Any other option returns the list unchanged. |
| `Dashboard.Search` | src/pages/analytics.js:211-217 | Keeps exactly the items whose lower-cased short code or original URL contains the lower-cased term, with their multiplicities. |
| `Dashboard.SearchKeepsOrder` | src/pages/analytics.js:212-216 | The search keeps the order of the list. |
| `Dashboard.SearchEmptyTermKeepsAll` | src/pages/analytics.js:212-216 | An empty term keeps every item. |
| `Dashboard.FilteredUrls` | src/pages/analytics.js:211-217 | Every shown item is a listed item matching the term. The four pure orderings show every match. |
| `Dashboard.Merge` | src/pages/analytics.js:132 | The spread merge takes each field the edit sent and keeps the item's own value for each field it did not send. The duplicate count and every other field of the link are unchanged. |
| `Dashboard.ApplyEdit` | src/pages/analytics.js:128-134 | After an edit, the length and every id are kept. Items with the edited id get the sent fields merged in. Every other item is unchanged. |
| `Dashboard.RemoveItem` | src/pages/analytics.js:153-154 | After a delete, no item has that id, and every other item is kept with its multiplicity. |
| `Dashboard.RemoveItemKeepsOrder` | src/pages/analytics.js:153-154 | The remaining items keep their relative order. |
| `Dashboard.RemoveAbsentItem` | src/pages/analytics.js:153-154 | Removing an id that is not listed changes nothing. |
| `Dashboard.BodyOf` | src/pages/analytics.js:118-126 | The PUT body carries each sent field as sent. An omitted short code arrives falsy, so the server refuses it. An omitted date arrives absent, so the server stores null. |
| `Dashboard.LocalEditMatchesServer` | src/pages/analytics.js:118-134 | Suppose an edit sends all three fields and the server accepts it. Then the locally merged item equals the record the server stores. |
| `Dashboard.LocalEditKeepsOmittedDate` | src/pages/analytics.js:130-133 | Suppose an accepted edit omits an expiration date the record had. The server clears the date, but the local item keeps the old one. |

## Left out

- Authentication, the database connection and the Mongoose model (`src/pages/api/analytics.ts:1-14`). The store is an in-memory map, and requests are serialized.
- Concurrent requests. The model runs each request as one step, so it does not capture two requests interleaving between their queries. Two consequences follow:
  - A permanent delete can slip in between `findOne` and `findOneAndUpdate` or `findByIdAndDelete` (`src/pages/api/analytics.ts:43,52,62`). The 404 re-checks at `src/pages/api/analytics.ts:57-58,63-64` then fire. In the model they cannot.
  - The edit checks and then acts: `findOne({ shortenUrl })` runs at `src/pages/api/analytics.ts:83` and `findByIdAndUpdate` at :97. Two concurrent edits that give the same new code to different ids can both pass the check, and only the schema's unique index (outside this model) could refuse one of them. `AnalyticsApi.EditResult`'s preservation of unique short codes holds only for serialized requests.
- The 500 answers of the two `catch` blocks and the `console` logging: storage failures are not modelled.
- Malformed ids (a database cast error, so 500) and array-valued query parameters. A query value is a string or absent.
- Ids in any form other than the canonical one. The model takes an id in the lower-case hexadecimal form that `_id.toString()` gives, and finds a record only by an exact match of that string. The source converts the query id to an ObjectId at every lookup (`src/pages/api/analytics.ts:43,52,62,97,111`), and that conversion accepts hex digits in either case. A castable non-canonical id, such as the upper-case form of a stored id, is therefore found by the source's queries but answered 404 by the model. The dashboard always sends the canonical `url._id` (`src/pages/analytics.js:120,150`).
- The `updatedAt` timestamp. If the schema, which is not part of this model, enables Mongoose timestamps, then `findOneAndUpdate`, `findByIdAndUpdate` and `save` (`src/pages/api/analytics.ts:52,97,125`) also set `updatedAt`. The frame clauses ("every other field unchanged") cover the modelled fields of `Link` only.
- Records whose `accesses.lastAccessed` array is missing. The source's recent-ten query (`src/pages/api/analytics.ts:19`) leaves such a record out. The model has no such records, so `IsRecentTen` counts every stored record.
- A `q` field stored as `null`. The listing query `{ q: { $exists: false } }` (`src/pages/api/analytics.ts:32`) leaves out a record whose `q` is `null`. In the model `q == None` stands for an absent field, so such a record cannot be stated, and `IsListing` would include one.
- `Dashboard.Merge` and `Dashboard.LocalEditMatchesServer` assume that `updatedFields` carries only `shortenUrl`, `expirationDate` and `scheduledDate`. A date arrives as the parsed value the server stores. `updatedFields` is built by `EditUrlDialog` (`src/pages/analytics.js:476-482`), which is not part of this model. If the dialog sends other keys, the spread at `src/pages/analytics.js:132` overwrites them too. The local item also keeps the raw values sent, such as a date string or `""` for a cleared date, while the server stores `new Date(x)` or `null` (`src/pages/api/analytics.ts:92-93`). So the local item equals the stored record only after parsing.
- Parsing dates with `new Date(string)`. A body date arrives as an already parsed `Option<Millis>`; `None` stands for an absent or falsy date. Invalid dates are not modelled.
- `toLowerCase` is modelled for the ASCII letters only.
- JavaScript numbers are modelled as integers: `NaN` and fractional values are not.
- `Sorting.Sort`: the model is a stable insertion sort, as JavaScript's `sort` is. Stability itself is not proved: tie order is left unstated. The database's tie order in the recent-ten query is unspecified too.
- `Dashboard.AddDuplicateCounts`: the count map is a Dafny map, not a plain JavaScript object. An original URL that names an `Object.prototype` property (such as `constructor`) would behave differently in the source.
- React rendering, effects, the keyboard shortcut, scrolling and animation timers, `fetch`, the clipboard and toasts (`src/pages/analytics.js:71-116,167-188,219-509`). Only the list transforms applied after a successful request are modelled.
- The redirect path, the access recorder with its 100-entry log, CSV export, QR codes and geolocation. Those files are not part of this model.
- Creating a link is not part of the handler. A store can only be built from a map that already satisfies the store invariant.
