# gentle-backend in Dafny

A model of the decision and report logic of a small REST backend for
charity events and the donations made to them. The model covers:

- the roles derived from a user's staff and superuser flags, and the
  permission check that guards event creation, update and deletion, and
  the authentication the donation, profile and summary endpoints require;
- the profile endpoint's role and group names;
- the live donation total of an event;
- validation and creation of a donation. The donor and the event come from
  the request, never from the client payload;
- the donation list of one event, newest first;
- the donation summary report: filter by title, order by date, count,
  paginate, then one row per event with count, amount, status and
  `hasDonation`.

The database is replaced by in-memory sequences. Amounts are integer cents,
since the amount column is a decimal with 2 places. Event dates are ordinal
day numbers. A donation's creation time is an integer timestamp. The
current day (`today`), the request user and the creation time are
parameters.

Modules, one file each:

- `results.dfy`: `Option` and `Result`.
- `text.dfy`: ASCII lower-casing and substring search (`icontains`).
- `seqs.dfy`: filtering, a stable insertion sort by descending key
  (`order_by('-date')`), Python-style slicing, and their properties.
- `models.dfy`: `Event`, `Donation` and the request `User`.
- `serializers.dfy`: role label, event total, amount validation, rendering,
  and the `DonationStore` class whose `AddDonation` appends a donation.
- `views.dfy`: permissions, profile, donation list, and the summary report.
  The report is a specification function `SummaryOf` and an imperative
  `DonationSummary` method proved equal to it.

## Model

| member | source | states |
|---|---|---|
| `Views.AdminOrHRIsRole` | core/views.py:22-29 | `IsAdminOrHR` grants access iff the user is authenticated and is a superuser or staff, i.e. authenticated with a role other than Employee |
| `Views.EventAccess` | core/views.py:46-62 | event list: POST needs Admin/HR, every other method only authentication; event detail: PUT, PATCH and DELETE need Admin/HR, every other method only authentication (both directions) |
| `Views.EventAccessRefused` | core/views.py:46-62 | an unauthenticated request is refused by both event views for every method; an Employee cannot POST an event or PUT/PATCH/DELETE one |
| `Views.ProfileRole` | core/views.py:119-124 | "admin" iff superuser (even when also staff), "hr" iff staff and not superuser, "employee" iff neither |
| `Views.ProfileRoleIsLowerLabel` | core/views.py:119-124 | the profile role is the lower-cased serializer role label, for every user |
| `Views.ProfileOf` | core/views.py:115-132 | the profile carries the user's id, username and email, the lower-cased role label, and every group name lower-cased, in order |
| `Serializers.RoleLabel` | core/serializers.py:17-23 | "Admin" iff superuser, "HR" iff staff and not superuser, "Employee" iff neither |
| `Views.DonationList` | core/views.py:75-78 | the list holds exactly the donations of the event (as a multiset, so with multiplicity), newest first |
| `Serializers.DonationsOf` | core/models.py:19 | an event's donations are exactly the stored donations with that event id |
| `Serializers.TotalDonations` | core/serializers.py:45-47 | the total equals the sum of the amounts of the event's donations; 0 when it has none |
| `Serializers.TotalNonNegative` | core/serializers.py:45-47 | when all amounts are positive, the total is never negative, and it is positive iff the event has a donation |
| `Serializers.TotalAfterAppend` | core/serializers.py:45-47 | appending a donation moves its own event's total by its amount and leaves every other event's total unchanged |
| `Serializers.ValidateAmount` | core/serializers.py:71-74 | the amount is accepted iff it is positive, and then returned unchanged; otherwise the error is "Amount must be greater than zero." |
| `Serializers.Validate` | core/serializers.py:69-74 | the payload passes iff its amount is positive; the validated data then holds that amount and nothing else |
| `Serializers.ReadOnlyFieldsIgnored` | core/serializers.py:69 | two payloads with the same amount validate alike, whatever `event`, `donor` or `date` they carry |
| `Serializers.Render` | core/serializers.py:54-56 | the rendered `donor`, `donor_email` and `event_title` come from the linked user and event; id, event, amount and date come from the donation |
| `Serializers.DonationStore.Create` | core/serializers.py:76-83 | the new donation has the caller as donor, the path's event, the validated amount and a fresh id; it is appended, and nothing else changes; the store invariant (all amounts positive, ids below the next id) is kept |
| `Serializers.DonationStore.AddDonation` | core/views.py:68-87 | a POST to the donation endpoint succeeds iff the caller is authenticated (core/views.py:70) and the amount is positive (core/serializers.py:71-74); a refused request returns the not-authenticated detail, an invalid one the amount message, and neither stores anything; on success it appends exactly one donation with a fresh id, by the caller to the event (core/serializers.py:76-83), and moves that event's total by the amount and no other total |
| `Text.IsSubstringIff` | core/views.py:149 | the substring scan holds iff the term occurs at some position of the title |
| `Seqs.SortDescSpec` | core/views.py:146 | the ordering is a permutation of the events with non-increasing dates |
| `Seqs.FilterSortDesc` | core/views.py:146-149 | ordering before filtering keeps exactly the events the filter keeps |
| `Views.MatchingSpec` | core/views.py:146-149 | the events before pagination are newest first; they are exactly the input events whose title contains the term case-insensitively, with multiplicity; with an empty term, every event of the input, with multiplicity |
| `Views.SummaryTotal` | core/views.py:148-151 | `total` is the number of matching events; it is the same for every `page` and `page_size`; with an empty term it is the number of events |
| `Views.PageBoundsValidIff` | core/views.py:153-157 | the precondition on `page`/`page_size` holds iff both slice bounds `(page - 1) * size` and `(page - 1) * size + size` are non-negative |
| `Views.PageRows` | core/views.py:155-157 | the slice `[start, start + size)` of the matching events, clamped to the list, gives at most `size` rows, none when the start is past the end, and row `k` is the row of event `start + k` |
| `Views.SummaryPage` | core/views.py:153-157 | for a numeric page size and `page >= 1`, the rows are those of the matching events at indices `[(page - 1) * size, (page - 1) * size + size)` clamped to the list: at most `size`, none past the end |
| `Views.SummaryDefaults` | core/views.py:143-144 | with the default `page=1` and `page_size=10`, the rows are those of the first ten matching events (all of them when fewer) |
| `Views.SummaryAll` | core/views.py:153-162 | with `page_size=all` every matching event has a row, whatever `page` is, so there are `total` rows |
| `Views.RowForSpec` | core/views.py:163-177 | a row has the event's id, title and date; `count` is the number of its donations; `amount` equals the event's `total_donations`; `hasDonation` iff `count > 0` iff the event has a donation; Completed iff the event's day is before `today` (today is Upcoming), and the status string is "Completed" or "Upcoming" accordingly; with positive amounts, `amount > 0` iff `hasDonation` |
| `Views.SummaryOrdered` | core/views.py:162-178 | the rows keep the newest-first order of the events |
| `Views.BuildRows` | core/views.py:159-178 | the loop appends, in order, exactly one row per event of the page |
| `Views.DonationSummary` | core/views.py:138-183 | refuses exactly the unauthenticated callers (core/views.py:139) with the not-authenticated detail; for everyone else the imperative handler (order, filter, count, slice, build rows) returns exactly the specified report `SummaryOf` |
| `Views.ProfileResponse` | core/views.py:112-132 | the profile endpoint answers exactly the authenticated users (core/views.py:113), with their id, username, email, role and lower-cased groups; anyone else gets the not-authenticated detail |
| `Views.DonationListResponse` | core/views.py:68-84 | the donation list answers exactly the authenticated users (core/views.py:70) asking about an existing event, with a newest-first permutation of the event's donations; a user who is not authenticated gets the not-authenticated detail, and an id with no event gets the `DoesNotExist` message of the lookup at core/views.py:83 |
| `Views.IsAdminOrHR` | core/views.py:22-29 | the permission class, defined as authentication first and then the superuser or staff flag; its meaning is proved in `Views.AdminOrHRIsRole` |
| `Views.EventListPermissions` | core/views.py:46-49 | POST gets `[IsAdminOrHR]`, every other method `[IsAuthenticated]`; what that grants is proved in `Views.EventAccess` |
| `Views.EventDetailPermissions` | core/views.py:59-62 | PUT, PATCH and DELETE get `[IsAdminOrHR]`, every other method `[IsAuthenticated]`; what that grants is proved in `Views.EventAccess` |
| `Views.Matching` | core/views.py:146-149 | the events ordered by date, newest first, then narrowed by `title__icontains` when the term is not empty; its properties are proved in `Views.MatchingSpec` |
| `Views.PageOf` | core/views.py:153-157 | the slice `[(page - 1) * size, (page - 1) * size + size)` for a numeric page size, every event for `all`; its properties are proved in `Views.SummaryPage` and `Views.SummaryAll` |
| `Views.RowFor` | core/views.py:163-177 | one report row per event; its properties are proved in `Views.RowForSpec` |
| `Views.SummaryOf` | core/views.py:141-183 | the report: the rows of the requested page of the matching events and their total count; its properties are proved in `Views.SummaryTotal`, `Views.SummaryPage`, `Views.SummaryAll`, `Views.SummaryDefaults` and `Views.SummaryOrdered` |
| `Seqs.SortDesc` | core/views.py:146 | `order_by('-date')` as a stable insertion sort by descending key; proved a sorted permutation in `Seqs.SortDescSpec` |
| `Text.IContains` | core/views.py:149 | `title__icontains`: the lower-cased term is a substring of the lower-cased title; the substring scan is characterised in `Text.IsSubstringIff` |

## Left out

- Query-string parsing: `int(page)` and `int(page_size)` raise on bad input. `page` and `page_size` are taken as already parsed.
- Negative slice bounds: the query set raises on them. `PageOf` and `DonationSummary` require `PageBoundsValid` instead of modelling the error.
- `order_by('-date')` does not fix the order of events or donations with equal dates. The model fixes it to the input order (a stable sort). `Seqs.SortDescSpec`, `Views.MatchingSpec`, `Views.SummaryTotal`, `Views.SummaryOrdered`, `Views.RowForSpec` and `Views.DonationList` hold for every order the database may choose. Which events fall on a page when dates tie (`Views.SummaryPage`, `Views.SummaryDefaults`, and the exact rows of `Views.SummaryOf` that `Views.DonationSummary` returns) is fixed only by the model's choice.
- `icontains` and `lower()` fold Unicode case. The model folds only ASCII letters.
- The framework's `SearchFilter` is not modelled: the search over title, description and location on the event list, and over donor username and email on the donation list.
- Pagination of the donation list (`PageNumberPagination`, default page size 10, next/previous links) is framework code and is not modelled.
- The confirmation email in `perform_create` (core/views.py:88-107) is outbound I/O and is not modelled. In the source the donation is saved before the send is attempted, and send errors are caught, so the model's `AddDonation` result is what the request returns.
- The event lookup for the donation endpoint (`Event.objects.get`, core/views.py:83) runs on every GET and POST and raises for an unknown id; no not-found response is produced. `DonationListResponse` models the raise as a `Failure` carrying the exception's message. `AddDonation` takes the already looked-up event as a parameter, so it does not model that raise.
- DRF's own field validation of the amount (at most 10 digits, 2 decimal places) is framework code and is not modelled. Amounts are already-parsed cents.
- The unused `idx` counter of the summary loop (core/views.py:162) is dropped.
- Cascade delete and `auto_now_add` are performed by the ORM. The creation time is passed in as `now`. Event create/update/delete themselves are framework CRUD; only their permission choice is modelled.
- Authentication tokens, image storage, settings, URL routing and HTTP status codes are not modelled. A refused request is a `Failure` carrying the framework's detail message instead of a 401 response. The summary's default page size of 10 is the literal at core/views.py:144; the `PAGE_SIZE` setting feeds only the framework pagination left out above.
- The donation representation includes the raw `event` id (core/serializers.py:62), and so does `Render`.
- `Render` describes the representation of one donation on its own. `AddDonation` and `DonationListResponse` return the stored `Donation` records, not their rendered form, because a rendering needs the linked user record, which the model does not keep.
