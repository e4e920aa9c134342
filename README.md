# Circles: lifecycle, membership and moderation rules

This project models the circle handlers of a social-event backend, where a
"circle" is a hosted, time-bound group event. The handlers are in
`backend/controllers/circles.py`. Every handler except the tag listing and
the flags handler reads the caller's id (and, for delete, the caller's role)
from the verified token; those two use no token. Create checks that
the requested host is the caller. Edit, delete and the tag changes look the
target circle up and apply an ownership rule. Registration, adding and
withdrawing flags and clearing a circle's flags check nothing. Each mutating
handler then performs a single insert, update or delete on one table; the
tag listing and the moderation queue only read.

The SQL tables become the fields of one `Store` object:

- `circles`: a map from circle id to row;
- `nextId`: the id the table will generate next;
- `registrations`, `circleTags` and `flags`: sequences of rows in storage order.

The model assumes no uniqueness constraint, so a side table may hold the
same row twice. An INSERT appends a row. A `DELETE ... WHERE` keeps exactly
the rows its WHERE clause does not match (`Tables.Filter`).

Modules:

- `Tables` (`tables.dfy`): the row types, `Filter`, `Without`, flag counting
  and tag listing, and the lemmas about inserting and deleting rows.
- `Circles` (`circles.dfy`): the circle row and the request bodies. It also
  holds the ownership checks (`HostGate`, `DeleteGate`) and the edit
  handler's truthy-override merge (`ApplyEdit`). Under that merge, a
  supplied value replaces the stored one only when it is truthy, as in
  Python's `a or b`.
- `Moderation` (`moderation.dfy`): the flag queue. It lists the existing
  circles that have at least one flag, each with its flag count, ordered
  from most flags to fewest.
- `CircleStore` (`store.dfy`): the `Store` class with one method per
  handler, except that the flags handler is split into its GET branch
  (`FlagQueue`) and its DELETE branch (`ClearFlags`), plus client methods that replay worked examples against the
  contracts.

Handler replies are a `Status`:

- `Ok`;
- `NotFound`: the "no circle found" reply. The code sends it with HTTP 400, not 404, and the model follows the code;
- `Unauthorized`: HTTP 403;
- `BadRequest`: the catch-all HTTP 400.

## Model

| member | source | states |
|---|---|---|
| `Circles.NewCircle` | backend/controllers/circles.py:123-134 | the inserted row carries the request's host, title, description and start date; its participants limit is the supplied one, or 100 when the field is absent; it starts neither live nor ended |
| `Circles.HostGate` | backend/controllers/circles.py:165-168 | a missing circle is reported first (Missing exactly when the id is absent); otherwise the check passes exactly when the caller is the circle's host |
| `Circles.DeleteGate` | backend/controllers/circles.py:209-212 | a missing circle is reported first; otherwise the check passes exactly when the caller is the host or the role is `admin`; whoever passes the host check passes this one |
| `Circles.ApplyEdit` | backend/controllers/circles.py:170-181 | each of title, description, participants limit, start date, is_live and is_ended takes the supplied value exactly when it is truthy and otherwise keeps the stored value; a field changes only to a truthy supplied value; host_id is untouched; is_live and is_ended become the disjunction of stored and supplied, so they never turn false |
| `Circles.EditsPreserve` | backend/controllers/circles.py:170-181 | over any sequence of edits, host_id never changes, a live or ended circle stays live or ended, and a non-empty title, description or start date or a non-zero limit never becomes empty or zero |
| `Circles.EditIdempotent` | backend/controllers/circles.py:170-175 | applying the same edit twice gives the same row as applying it once |
| `Circles.FalsyEditIsNoop` | backend/controllers/circles.py:170-175 | an edit whose fields are all absent or falsy writes back the stored row unchanged: no field can be cleared this way |
| `Tables.Without` | backend/controllers/circles.py:247-250 | a delete matching one exact row removes every copy of that row; every other row keeps its multiplicity |
| `Tables.AddThenRemove` | backend/controllers/circles.py:239-252 | inserting a row and then deleting it leaves the table as deleting alone would; when the row was absent before, that is the original table |
| `Tables.RemoveAbsent` | backend/controllers/circles.py:246-252 | deleting a row the table does not hold leaves the table unchanged: deregistering when not registered is a no-op |
| `Tables.WithoutCircleFlags` | backend/controllers/circles.py:484-488 | clearing a circle's flags removes exactly the rows of that circle; no remaining row names it, and other rows keep their multiplicity |
| `Tables.FlagCount` | backend/controllers/circles.py:474-480 | a circle's flag count is at most the number of rows, and it is zero exactly when no row names the circle |
| `Tables.FlagCountAppend` | backend/controllers/circles.py:410-413 | a new flag raises its own circle's count by one and leaves every other count unchanged |
| `Tables.ClearFlagsCounts` | backend/controllers/circles.py:484-488 | after clearing circle c's flags, c's count is 0 and every other circle's count is unchanged |
| `Tables.WithdrawFlagCounts` | backend/controllers/circles.py:453-457 | withdrawing a user's flags on circle c leaves every other circle's count unchanged and lowers c's count by exactly the number of that user's flag rows on c |
| `Tables.FlagCountRows` | backend/controllers/circles.py:474-478 | a circle's flag count is the number of flag rows whose circle id is that circle, as `COUNT(*)` grouped by circle id gives |
| `Tables.TagNames` | backend/controllers/circles.py:316-323 | a circle's tag list holds each tag as many times as the pair (circle, tag) occurs in the table |
| `Moderation.FlaggedIds` | backend/controllers/circles.py:474-478 | the grouped ids are pairwise distinct, and an id occurs exactly when its flag count is positive |
| `Moderation.Entries` | backend/controllers/circles.py:475-478 | the join with circles yields one entry per grouped id that names an existing circle; each entry carries that circle's row and its flag count; distinct ids give distinct entries |
| `Moderation.SortByCount` | backend/controllers/circles.py:479 | the result is ordered by flag count, non-increasing, and is a permutation of its input |
| `Moderation.Queue` | backend/controllers/circles.py:474-480 | the queue lists exactly the existing circles with at least one flag, each once, with its row and its number of flag rows, ordered by flag count, non-increasing |
| `Moderation.QueueScenario` | backend/controllers/circles.py:474-480 | with three flags on circle 1 and one on circle 2, the queue is circle 1 (count 3) then circle 2 (count 1) |
| `CircleStore.Store.AddCircle` | backend/controllers/circles.py:109-141 | creation succeeds exactly when `int(host_id)` equals the caller's id. An unparsable host is BadRequest and a different host is Unauthorized; both leave the store unchanged. On success the returned row is the one stored, under a fresh id, and nothing else changes |
| `CircleStore.Store.EditCircle` | backend/controllers/circles.py:146-185 | NotFound exactly when the circle is absent; Unauthorized exactly when it exists and the caller is not its host; a rejected call changes nothing; on success only that circle's row changes, to `ApplyEdit` of it; no circle's host ever changes |
| `CircleStore.Store.DeleteCircle` | backend/controllers/circles.py:189-222 | NotFound exactly when the circle is absent; success exactly when the caller is the host or an admin, and then only that circle's row is removed; registrations, tags and flags are left as they were |
| `CircleStore.Store.ManageRegistration` | backend/controllers/circles.py:226-254 | PUT appends the pair (circle, caller); DELETE removes every such pair and nothing else; both always succeed and touch no other table |
| `CircleStore.Store.TagsOf` | backend/controllers/circles.py:306-326 | the loop returns each tag of the circle as many times as the pair (circle, tag) occurs in the table, in no promised order; a tag is listed exactly when that pair is in the table |
| `CircleStore.Store.ManageTags` | backend/controllers/circles.py:349-391 | NotFound, then Unauthorized for a caller who is not the host, both before any change; on success PUT appends the pair (circle, tag) and DELETE removes every copy of exactly that pair |
| `CircleStore.Store.AddFlag` | backend/controllers/circles.py:396-417 | any caller may flag any circle; the flag row is appended and the circle's count goes up by one |
| `CircleStore.Store.DeleteFlagByUser` | backend/controllers/circles.py:442-461 | removes the caller's own flags on that circle and no other row |
| `CircleStore.Store.FlagQueue` | backend/controllers/circles.py:473-482 | the GET branch returns exactly the existing circles with at least one flag, each once, with its row and its number of flag rows, ordered by flag count, non-increasing; circles with equal counts may come in any order |
| `CircleStore.Store.ClearFlags` | backend/controllers/circles.py:483-490 | the DELETE branch removes all flags of that circle and no others; any caller may do it; afterwards the circle's count is 0 |
| `CircleStore.CreateScenario` | backend/controllers/circles.py:116-139 | caller 7 naming host 42 is refused and nothing is stored; host 42 then creates "Run club", and the store holds exactly that row under id 1 |

## Left out

- Flask routing, `jwt_required`/`get_jwt` and JSON replies: the caller's id and role are method arguments, and replies are a `Status`.
- `connect_db`, the cursor and `commit`: the store is in memory. The "cannot access db" reply (HTTP 404) that every handler sends when no connection is available is not modelled.
- Database errors caught by the catch-all `except`: duplicate rows under a uniqueness constraint, and a registration, tag or flag for a circle that does not exist under a foreign key. The schema is not part of this model, so inserts always succeed. The one error path that is modelled is a `host_id` that `int()` cannot parse (`AddRequest.hostId == None`).
- `add_circle_middleware` and `update_circle_middleware` are not part of this model. Requests are typed: `host_id` is an integer, so the value `int(host_id)` checks is also the value inserted (a non-integral number such as 42.7, which passes the check for caller 42 but would be stored rounded, is not modelled); title, description and start date are text, the limit is an integer, and the live/ended flags are booleans. A JSON null for a create field and the truthiness of other JSON types (such as the string "false") are not modelled.
- Defaults the schema supplies: new circles start with is_live and is_ended false, and generated ids are modelled as a counter that starts at 1. The schema is not visible.
- No cascade on circle deletion: `DeleteCircle` leaves the circle's registrations, tags and flags in place, as the handler does. Any `ON DELETE` action in the schema is not visible.
- The join with `users`: the `username` column is dropped. Every host is assumed to have a user row; otherwise the queue's join would drop that circle.
- `CircleStore.Store.FlagQueue`: the order of circles with equal flag counts is left open, because the query orders by count only. `Moderation.Queue` computes one such order, but the method's contract does not promise it.
- `CircleStore.Store.TagsOf`: the tag query has no ORDER BY, so the contract promises only which tags are listed and how often, not their order.
- The read-only endpoints `get_all_circles`, `get_circle_by_id`, `get_following_circles`, `get_circles_by_user`, `get_registered_users`, `get_registered_circles`, `get_all_tags` and `get_flags_by_circle`. They only select and join rows and change nothing.
- Start dates are opaque text, so no date ordering is modelled.
- `request.method` checks inside handlers whose route admits only that method are taken as always true.
- Concurrency: the read-then-write race between the ownership check and the mutation is outside the model. Each handler is one atomic step.
- The React pages and components of the frontend, and the app wiring in `backend/app.py`.
