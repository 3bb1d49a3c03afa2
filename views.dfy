/**
 The views (core/views.py): the permission classes and their choice per
 HTTP method, the profile endpoint's role, the donation list of an event,
 and the donation summary report.
 */
module Views {
  import opened Results
  import opened Models
  import Seqs
  import Text
  import Serializers

  // ---------------------------------------------------------------------
  // Permissions
  // ---------------------------------------------------------------------

  /** The framework's `IsAuthenticated` check. */
  predicate IsAuthenticated(u: User)
  {
    u.isAuthenticated
  }

  /** `IsAdminOrHR.has_permission`: authenticated first, then superuser or staff. */
  predicate IsAdminOrHR(u: User)
  {
    if !IsAuthenticated(u) then false
    else u.isSuperuser || u.isStaff
  }

  /** Admin/HR access is exactly an authenticated user whose role label is not Employee. */
  lemma AdminOrHRIsRole(u: User)
    ensures IsAdminOrHR(u) <==> u.isAuthenticated && (u.isSuperuser || u.isStaff)
    ensures IsAdminOrHR(u) <==> u.isAuthenticated && Serializers.RoleLabel(u) != "Employee"
  {
  }

  datatype HttpMethod = GET | POST | PUT | PATCH | DELETE | HEAD | OPTIONS

  datatype Permission = Authenticated | AdminOrHR

  predicate Grants(p: Permission, u: User)
  {
    match p
    case Authenticated => IsAuthenticated(u)
    case AdminOrHR => IsAdminOrHR(u)
  }

  /** A request passes when every permission the view returns grants it. */
  predicate PermitsAll(ps: seq<Permission>, u: User)
  {
    forall i :: 0 <= i < |ps| ==> Grants(ps[i], u)
  }

  /** `EventListCreateView.get_permissions`. */
  function EventListPermissions(m: HttpMethod): seq<Permission>
  {
    if m == POST then [AdminOrHR] else [Authenticated]
  }

  /** `EventDetailView.get_permissions`. */
  function EventDetailPermissions(m: HttpMethod): seq<Permission>
  {
    if m in {PUT, PATCH, DELETE} then [AdminOrHR] else [Authenticated]
  }

  /** Creating, updating and deleting an event needs Admin/HR; everything else only authentication. */
  lemma EventAccess(m: HttpMethod, u: User)
    ensures PermitsAll(EventListPermissions(m), u) <==>
      if m == POST then u.isAuthenticated && (u.isSuperuser || u.isStaff) else u.isAuthenticated
    ensures PermitsAll(EventDetailPermissions(m), u) <==>
      if m in {PUT, PATCH, DELETE} then u.isAuthenticated && (u.isSuperuser || u.isStaff) else u.isAuthenticated
  {
    assert PermitsAll(EventListPermissions(m), u) <==> Grants(EventListPermissions(m)[0], u);
    assert PermitsAll(EventDetailPermissions(m), u) <==> Grants(EventDetailPermissions(m)[0], u);
  }

  /** An unauthenticated request is refused by every event endpoint, and an Employee cannot change events. */
  lemma EventAccessRefused(m: HttpMethod, u: User)
    ensures !u.isAuthenticated ==> !PermitsAll(EventListPermissions(m), u) && !PermitsAll(EventDetailPermissions(m), u)
    ensures Serializers.RoleLabel(u) == "Employee" && m == POST ==> !PermitsAll(EventListPermissions(m), u)
    ensures Serializers.RoleLabel(u) == "Employee" && m in {PUT, PATCH, DELETE} ==> !PermitsAll(EventDetailPermissions(m), u)
  {
    EventAccess(m, u);
  }

  // ---------------------------------------------------------------------
  // Profile
  // ---------------------------------------------------------------------

  /** The role branch of `UserProfileView.get`. */
  function ProfileRole(u: User): (r: string)
    ensures r == "admin" <==> u.isSuperuser
    ensures r == "hr" <==> !u.isSuperuser && u.isStaff
    ensures r == "employee" <==> !u.isSuperuser && !u.isStaff
  {
    if u.isSuperuser then "admin"
    else if u.isStaff then "hr"
    else "employee"
  }

  /** The two role derivations agree up to case. */
  lemma ProfileRoleIsLowerLabel(u: User)
    ensures ProfileRole(u) == Text.Lower(Serializers.RoleLabel(u))
  {
    var roleLabel := Serializers.RoleLabel(u);
    var lowered := Text.Lower(roleLabel);
    if u.isSuperuser {
      assert lowered == "admin";
    } else if u.isStaff {
      assert lowered == "hr";
    } else {
      assert lowered == "employee";
    }
  }

  datatype Profile = Profile(id: nat, username: string, email: string, role: string, groups: seq<string>)

  /** `UserProfileView.get`: identity fields, the role and the lower-cased group names. */
  function ProfileOf(u: User): (r: Profile)
    ensures r.id == u.id && r.username == u.username && r.email == u.email
    ensures r.role == Text.Lower(Serializers.RoleLabel(u))
    ensures |r.groups| == |u.groups|
    ensures forall i :: 0 <= i < |u.groups| ==> r.groups[i] == Text.Lower(u.groups[i])
  {
    ProfileRoleIsLowerLabel(u);
    Profile(u.id, u.username, u.email, ProfileRole(u),
      seq(|u.groups|, i requires 0 <= i < |u.groups| => Text.Lower(u.groups[i])))
  }

  /**
   `UserProfileView` (`permission_classes = [IsAuthenticated]`): the profile
   of an authenticated user; anyone else is refused.
   */
  function ProfileResponse(u: User): (r: Result<Profile, string>)
    ensures r.Success? <==> u.isAuthenticated
    ensures r.Success? ==> r.value.role == ProfileRole(u) && r.value.groups == ProfileOf(u).groups
    ensures r.Success? ==> r.value.id == u.id && r.value.username == u.username && r.value.email == u.email
    ensures r.Failure? ==> r.error == NotAuthenticatedMessage
  {
    if !IsAuthenticated(u) then Failure(NotAuthenticatedMessage) else Success(ProfileOf(u))
  }

  // ---------------------------------------------------------------------
  // Donation list of one event
  // ---------------------------------------------------------------------

  /** `DonationListCreateView.get_queryset`: the event's donations, newest first. */
  function DonationList(ds: seq<Donation>, eventId: nat): (r: seq<Donation>)
    ensures forall d :: d in r <==> d in ds && d.eventId == eventId
    ensures multiset(r) == multiset(Serializers.DonationsOf(ds, eventId))
    ensures Seqs.SortedDesc(r, DonationCreated)
  {
    var r := Seqs.SortDesc(Serializers.DonationsOf(ds, eventId), DonationCreated);
    Seqs.SortDescSpec(Serializers.DonationsOf(ds, eventId), DonationCreated);
    assert forall d :: d in r <==> d in multiset(r);
    r
  }

  /**
   A GET on `DonationListCreateView` (`permission_classes = [IsAuthenticated]`):
   an unauthenticated user is refused; otherwise building the serializer
   context looks the event up and raises when no event has the id; otherwise
   the answer is the event's donations.
   */
  function DonationListResponse(u: User, events: seq<Event>, ds: seq<Donation>, eventId: nat)
    : (r: Result<seq<Donation>, string>)
    ensures r.Success? <==> u.isAuthenticated && exists e :: e in events && e.id == eventId
    ensures r.Success? ==> multiset(r.value) == multiset(Serializers.DonationsOf(ds, eventId))
    ensures r.Success? ==> Seqs.SortedDesc(r.value, DonationCreated)
    ensures r.Failure? ==> r.error == if u.isAuthenticated then EventMissingMessage else NotAuthenticatedMessage
  {
    if !IsAuthenticated(u) then Failure(NotAuthenticatedMessage)
    else if !(exists e :: e in events && e.id == eventId) then Failure(EventMissingMessage)
    else Success(DonationList(ds, eventId))
  }

  // ---------------------------------------------------------------------
  // Donation summary
  // ---------------------------------------------------------------------

  /** The default of the `page_size` query parameter of the summary report. */
  const DefaultPageSize: int := 10

  /** The parsed `page_size` parameter: the word `all`, or a number. */
  datatype PageSize = All | Limit(size: int)

  datatype Status = Completed | Upcoming

  function StatusLabel(s: Status): string
  {
    match s
    case Completed => "Completed"
    case Upcoming => "Upcoming"
  }

  datatype SummaryRow = SummaryRow(
    id: nat,
    name: string,
    date: int,
    count: nat,
    amount: int,
    status: Status,
    hasDonation: bool)

  datatype Summary = Summary(results: seq<SummaryRow>, total: nat)

  /** `title__icontains=search`. */
  predicate TitleMatches(search: string, e: Event)
  {
    Text.IContains(e.title, search)
  }

  function TitleFilter(search: string): Event -> bool
  {
    e => TitleMatches(search, e)
  }

  /** An empty search term matches every title. */
  lemma EmptySearchMatches(e: Event)
    ensures TitleMatches([], e)
  {
    assert Text.Lower([]) == [];
    Text.EmptyIsSubstring(Text.Lower(e.title));
  }

  /**
   The events of the report before pagination: ordered by date, newest
   first, then narrowed to titles containing `search` when it is not empty.
   */
  function Matching(events: seq<Event>, search: string): seq<Event>
  {
    var ordered := Seqs.SortDesc(events, EventDay);
    if search != [] then Seqs.Filter(ordered, TitleFilter(search)) else ordered
  }

  /**
   The matching events are newest first, and they are exactly the events of
   the input whose title contains the term (every event for an empty term).
   */
  lemma MatchingSpec(events: seq<Event>, search: string)
    ensures search == [] ==> multiset(Matching(events, search)) == multiset(events)
    ensures Seqs.SortedDesc(Matching(events, search), EventDay)
    ensures multiset(Matching(events, search)) == multiset(Seqs.Filter(events, TitleFilter(search)))
    ensures |Matching(events, search)| == |Seqs.Filter(events, TitleFilter(search))|
    ensures forall e :: e in Matching(events, search) <==> e in events && TitleMatches(search, e)
  {
    var p := TitleFilter(search);
    var ordered := Seqs.SortDesc(events, EventDay);
    var r := Matching(events, search);
    Seqs.SortDescSpec(events, EventDay);
    Seqs.FilterMembers(events, p);
    Seqs.FilterSortDesc(events, EventDay, p);
    if search == [] {
      forall e | e in events ensures p(e) {
        EmptySearchMatches(e);
      }
      Seqs.FilterAll(events, p);
      assert r == ordered;
    } else {
      Seqs.FilterSorted(ordered, EventDay, p);
    }
    assert multiset(r) == multiset(Seqs.Filter(events, p));
    assert |multiset(r)| == |r|;
    assert |multiset(Seqs.Filter(events, p))| == |Seqs.Filter(events, p)|;
    forall e ensures e in r <==> e in events && TitleMatches(search, e) {
      assert e in r <==> e in multiset(r);
      assert e in Seqs.Filter(events, p) <==> e in multiset(Seqs.Filter(events, p));
    }
  }

  /**
   The page parameters the query set accepts: it refuses a negative slice
   bound, so a numeric page size needs `(page - 1) * size >= 0` and
   `(page - 1) * size + size >= 0`, stated here without multiplication.
   */
  predicate PageBoundsValid(page: int, pageSize: PageSize)
  {
    pageSize.Limit? ==>
      pageSize.size == 0 || (pageSize.size > 0 && page >= 1) || (pageSize.size < 0 && page <= 0)
  }

  /** The first index of 1-indexed page `page`: `(page - 1) * page_size`. */
  function PageStart(page: int, size: int): int
  {
    (page - 1) * size
  }

  /** The predicate says exactly that both slice bounds are non-negative. */
  lemma PageBoundsValidIff(page: int, size: int)
    ensures PageBoundsValid(page, Limit(size)) <==> PageStart(page, size) >= 0 && PageStart(page, size) + size >= 0
  {
    if size > 0 && page < 1 {
      assert (page - 1) * size < 0;
    } else if size < 0 && page > 0 {
      assert (page - 1) * size + size == page * size;
      assert page * size < 0;
    } else if size > 0 {
      assert (page - 1) * size >= 0;
    } else if size < 0 {
      assert (page - 1) * size >= 0;
      assert (page - 1) * size + size == page * size;
      assert page * size >= 0;
    }
  }

  /** The rows of page `page` (1-indexed), or all rows when `page_size` is `all`. */
  function PageOf(qs: seq<Event>, page: int, pageSize: PageSize): seq<Event>
    requires PageBoundsValid(page, pageSize)
  {
    match pageSize
    case All => qs
    case Limit(size) =>
      PageBoundsValidIff(page, size);
      var start := PageStart(page, size);
      Seqs.Slice(qs, start, start + size)
  }

  /** One report row: the event's donation count and sum, whether it has any, and its status on `today`. */
  function RowFor(e: Event, ds: seq<Donation>, today: int): SummaryRow
  {
    var mine := Serializers.DonationsOf(ds, e.id);
    var count := |mine|;
    var amount := Serializers.OrZero(Serializers.SumAggregate(mine));
    SummaryRow(e.id, e.title, e.date, count, amount, if e.date < today then Completed else Upcoming, count > 0)
  }

  /**
   A row counts the event's donations and carries their total (the same
   value as the event's `total_donations`); it has a donation iff the count
   is positive, and it is Completed iff the event's day is before `today`.
   */
  lemma RowForSpec(e: Event, ds: seq<Donation>, today: int)
    ensures var r := RowFor(e, ds, today);
            && r.id == e.id && r.name == e.title && r.date == e.date
            && r.count == |Serializers.DonationsOf(ds, e.id)|
            && r.amount == Serializers.TotalDonations(e, ds)
            && (r.hasDonation <==> r.count > 0)
            && (r.hasDonation <==> exists d :: d in ds && d.eventId == e.id)
            && (r.status == Completed <==> e.date < today)
            && StatusLabel(r.status) == (if e.date < today then "Completed" else "Upcoming")
            && (AllPositive(ds) ==> r.amount >= 0 && (r.amount > 0 <==> r.hasDonation))
  {
    var mine := Serializers.DonationsOf(ds, e.id);
    assert mine != [] ==> mine[0] in mine;
    if AllPositive(ds) {
      Serializers.TotalNonNegative(e, ds);
    }
  }

  /** The report rows built from `qs`, one per event, in the order of `qs`. */
  function Rows(qs: seq<Event>, ds: seq<Donation>, today: int): (r: seq<SummaryRow>)
    ensures |r| == |qs|
    ensures forall k :: 0 <= k < |qs| ==> r[k] == RowFor(qs[k], ds, today)
  {
    seq(|qs|, k requires 0 <= k < |qs| => RowFor(qs[k], ds, today))
  }

  /** The report `DonationSummaryView.get` returns. */
  function SummaryOf(events: seq<Event>, ds: seq<Donation>, search: string, page: int, pageSize: PageSize, today: int): Summary
    requires PageBoundsValid(page, pageSize)
  {
    var qs := Matching(events, search);
    Summary(Rows(PageOf(qs, page, pageSize), ds, today), |qs|)
  }

  /** The loop of `DonationSummaryView.get` that appends one row per event of the page. */
  method BuildRows(qs: seq<Event>, ds: seq<Donation>, today: int) returns (results: seq<SummaryRow>)
    ensures results == Rows(qs, ds, today)
  {
    results := [];
    for i := 0 to |qs|
      invariant |results| == i
      invariant forall k :: 0 <= k < i ==> results[k] == RowFor(qs[k], ds, today)
    {
      var e := qs[i];
      var mine := Serializers.DonationsOf(ds, e.id);
      var count := |mine|;
      var amount := Serializers.OrZero(Serializers.SumAggregate(mine));
      var status := if e.date < today then Completed else Upcoming;
      results := results + [SummaryRow(e.id, e.title, e.date, count, amount, status, count > 0)];
    }
  }

  /**
   `DonationSummaryView.get` (`permission_classes = [IsAuthenticated]`): refuse
   an unauthenticated caller, then order, filter, count, slice, and build one
   row per event.
   */
  method DonationSummary(caller: User, events: seq<Event>, ds: seq<Donation>, search: string,
                         page: int, pageSize: PageSize, today: int)
    returns (r: Result<Summary, string>)
    requires IsAuthenticated(caller) ==> PageBoundsValid(page, pageSize)
    ensures r.Success? <==> caller.isAuthenticated
    ensures r.Failure? ==> r.error == NotAuthenticatedMessage
    ensures r.Success? ==> r.value == SummaryOf(events, ds, search, page, pageSize, today)
  {
    if !IsAuthenticated(caller) {
      return Failure(NotAuthenticatedMessage);
    }
    var qs := Seqs.SortDesc(events, EventDay);
    if search != [] {
      qs := Seqs.Filter(qs, TitleFilter(search));
    }
    var total := |qs|;
    ghost var matching := qs;
    assert matching == Matching(events, search);
    if pageSize.Limit? {
      PageBoundsValidIff(page, pageSize.size);
      var start := PageStart(page, pageSize.size);
      var end := start + pageSize.size;
      qs := Seqs.Slice(qs, start, end);
    }
    var results := BuildRows(qs, ds, today);
    assert qs == PageOf(matching, page, pageSize);
    r := Success(Summary(results, total));
  }

  // ---------------------------------------------------------------------
  // Properties of the report
  // ---------------------------------------------------------------------

  /** `total` counts the matching events before pagination, whatever the page parameters. */
  lemma SummaryTotal(events: seq<Event>, ds: seq<Donation>, search: string,
                     page: int, pageSize: PageSize, page': int, pageSize': PageSize, today: int)
    requires PageBoundsValid(page, pageSize) && PageBoundsValid(page', pageSize')
    ensures SummaryOf(events, ds, search, page, pageSize, today).total == |Seqs.Filter(events, TitleFilter(search))|
    ensures SummaryOf(events, ds, search, page, pageSize, today).total == SummaryOf(events, ds, search, page', pageSize', today).total
    ensures search == [] ==> SummaryOf(events, ds, search, page, pageSize, today).total == |events|
  {
    MatchingSpec(events, search);
    if search == [] {
      forall e | e in events ensures TitleFilter(search)(e) {
        EmptySearchMatches(e);
      }
      Seqs.FilterAll(events, TitleFilter(search));
    }
  }

  /** The rows of the slice `[start, start + size)` of the matching events, clamped to the list. */
  lemma PageRows(m: seq<Event>, ds: seq<Donation>, start: int, size: int, today: int)
    requires start >= 0 && size >= 0
    ensures var r := Rows(Seqs.Slice(m, start, start + size), ds, today);
            && |r| <= size
            && (start >= |m| ==> r == [])
            && (start < |m| ==> |r| == (if start + size <= |m| then start + size else |m|) - start)
            && forall k :: 0 <= k < |r| ==> start + k < |m| && r[k] == RowFor(m[start + k], ds, today)
  {
  }

  /**
   With a numeric page size and `page >= 1`, the rows are those of the
   matching events at indices `[(page - 1) * size, (page - 1) * size + size)`,
   clamped to the list: at most `size` of them, and none once the start is
   past the end.
   */
  lemma SummaryPage(events: seq<Event>, ds: seq<Donation>, search: string, page: int, size: int, today: int)
    requires page >= 1 && size >= 0
    ensures PageBoundsValid(page, Limit(size))
    ensures var s := SummaryOf(events, ds, search, page, Limit(size), today);
            var m := Matching(events, search);
            var start := PageStart(page, size);
            && |s.results| <= size
            && (start >= |m| ==> s.results == [])
            && (start < |m| ==> |s.results| == (if start + size <= |m| then start + size else |m|) - start)
            && forall k :: 0 <= k < |s.results| ==> 0 <= start + k < |m| && s.results[k] == RowFor(m[start + k], ds, today)
  {
    PageBoundsValidIff(page, size);
    var m := Matching(events, search);
    var start := PageStart(page, size);
    assert PageOf(m, page, Limit(size)) == Seqs.Slice(m, start, start + size);
    PageRows(m, ds, start, size, today);
  }

  /** With `page_size=all` every matching event gets a row, whatever `page` is. */
  lemma SummaryAll(events: seq<Event>, ds: seq<Donation>, search: string, page: int, today: int)
    ensures var s := SummaryOf(events, ds, search, page, All, today);
            && |s.results| == s.total
            && s.results == Rows(Matching(events, search), ds, today)
  {
  }

  /** With the defaults `page=1` and `page_size=10` the rows are those of the ten newest matching events. */
  lemma SummaryDefaults(events: seq<Event>, ds: seq<Donation>, search: string, today: int)
    ensures PageBoundsValid(1, Limit(DefaultPageSize))
    ensures var m := Matching(events, search);
            SummaryOf(events, ds, search, 1, Limit(DefaultPageSize), today).results
              == Rows(m[..if |m| <= DefaultPageSize then |m| else DefaultPageSize], ds, today)
  {
    var m := Matching(events, search);
    assert PageStart(1, DefaultPageSize) == 0;
    assert PageOf(m, 1, Limit(DefaultPageSize)) == m[..if |m| <= DefaultPageSize then |m| else DefaultPageSize];
  }

  /** The rows keep the newest-first order of the events. */
  lemma SummaryOrdered(events: seq<Event>, ds: seq<Donation>, search: string, page: int, pageSize: PageSize, today: int)
    requires PageBoundsValid(page, pageSize)
    ensures var r := SummaryOf(events, ds, search, page, pageSize, today).results;
            forall i, j :: 0 <= i < j < |r| ==> r[i].date >= r[j].date
  {
    var m := Matching(events, search);
    MatchingSpec(events, search);
    var qs := PageOf(m, page, pageSize);
    if pageSize.Limit? {
      PageBoundsValidIff(page, pageSize.size);
      var start := PageStart(page, pageSize.size);
      Seqs.SliceSorted(m, start, start + pageSize.size, EventDay);
    }
    var r := Rows(qs, ds, today);
    forall i, j | 0 <= i < j < |r| ensures r[i].date >= r[j].date {
      assert EventDay(qs[i]) >= EventDay(qs[j]);
    }
  }
}
