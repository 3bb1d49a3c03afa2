/**
 The serializers (core/serializers.py): the role label of a user, the live
 donation total of an event, validation of a donation amount, and creation
 of a donation whose donor and event come from the request, never from the
 client payload.
 */
module Serializers {
  import opened Results
  import opened Models
  import Seqs

  /** `UserSerializer.get_role`: the superuser flag wins over the staff flag. */
  function RoleLabel(u: User): (r: string)
    ensures r == "Admin" <==> u.isSuperuser
    ensures r == "HR" <==> !u.isSuperuser && u.isStaff
    ensures r == "Employee" <==> !u.isSuperuser && !u.isStaff
  {
    if u.isSuperuser then "Admin"
    else if u.isStaff then "HR"
    else "Employee"
  }

  /** `obj.donations`: the donations whose event is `eventId`, in stored order. */
  function DonationsOf(ds: seq<Donation>, eventId: nat): (r: seq<Donation>)
    ensures forall d :: d in r <==> d in ds && d.eventId == eventId
  {
    var p := (d: Donation) => d.eventId == eventId;
    Seqs.FilterMembers(ds, p);
    Seqs.Filter(ds, p)
  }

  /** The arithmetic sum of the amounts. */
  function SumAmounts(ds: seq<Donation>): int
  {
    if ds == [] then 0 else ds[0].amount + SumAmounts(ds[1..])
  }

  lemma {:induction false} SumAppend(a: seq<Donation>, b: seq<Donation>)
    ensures SumAmounts(a + b) == SumAmounts(a) + SumAmounts(b)
  {
    if a == [] {
      assert a + b == b;
    } else {
      assert (a + b)[1..] == a[1..] + b;
      SumAppend(a[1..], b);
    }
  }

  /** A sum of positive amounts is positive exactly when there is at least one. */
  lemma {:induction false} SumPositive(ds: seq<Donation>)
    requires AllPositive(ds)
    ensures SumAmounts(ds) >= 0
    ensures SumAmounts(ds) > 0 <==> ds != []
  {
    if ds != [] {
      SumPositive(ds[1..]);
    }
  }

  /** The SQL `SUM` aggregate: no value over no rows. */
  function SumAggregate(ds: seq<Donation>): (r: Option<int>)
    ensures r.None? <==> ds == []
  {
    if ds == [] then None else Some(SumAmounts(ds))
  }

  /** Python's `x or 0` on an aggregate result: a missing value and a zero both give 0. */
  function OrZero(x: Option<int>): int
  {
    match x
    case None => 0
    case Some(v) => if v == 0 then 0 else v
  }

  /** `EventSerializer.get_total_donations`: the live sum of the event's donations. */
  function TotalDonations(e: Event, ds: seq<Donation>): (r: int)
    ensures r == SumAmounts(DonationsOf(ds, e.id))
    ensures DonationsOf(ds, e.id) == [] ==> r == 0
  {
    OrZero(SumAggregate(DonationsOf(ds, e.id)))
  }

  /** Under the amount invariant the total is never negative, and positive iff the event has a donation. */
  lemma TotalNonNegative(e: Event, ds: seq<Donation>)
    requires AllPositive(ds)
    ensures TotalDonations(e, ds) >= 0
    ensures TotalDonations(e, ds) > 0 <==> exists d :: d in ds && d.eventId == e.id
  {
    var mine := DonationsOf(ds, e.id);
    assert AllPositive(mine) by {
      forall i | 0 <= i < |mine| ensures mine[i].amount > 0 {
        assert mine[i] in ds;
      }
    }
    SumPositive(mine);
    if exists d :: d in ds && d.eventId == e.id {
      var d :| d in ds && d.eventId == e.id;
      assert d in mine;
    }
  }

  /** Adding a donation moves the total of its own event by its amount and no other total. */
  lemma TotalAfterAppend(e: Event, ds: seq<Donation>, d: Donation)
    ensures TotalDonations(e, ds + [d]) == TotalDonations(e, ds) + (if d.eventId == e.id then d.amount else 0)
  {
    var p := (x: Donation) => x.eventId == e.id;
    Seqs.FilterAppend(ds, [d], p);
    SumAppend(Seqs.Filter(ds, p), Seqs.Filter([d], p));
    assert Seqs.Filter([d], p) == (if p(d) then [d] else []) + Seqs.Filter([], p);
  }

  const AmountMessage: string := "Amount must be greater than zero."

  /** `DonationSerializer.validate_amount`. */
  function ValidateAmount(value: int): (r: Result<int, string>)
    ensures r.Success? <==> value > 0
    ensures r.Success? ==> r.value == value
    ensures r.Failure? ==> r.error == AmountMessage
  {
    if value <= 0 then Failure(AmountMessage) else Success(value)
  }

  type PositiveCents = x: int | x > 0 witness 1

  /**
   What a client may send to the donation endpoint. `event`, `donor` and
   `date` are read-only fields: a client may supply them, but validation
   drops them.
   */
  datatype DonationPayload = DonationPayload(amount: int, event: Option<nat>, donor: Option<nat>, date: Option<int>)

  /** The validated data: only the amount survives. */
  datatype ValidatedDonation = ValidatedDonation(amount: PositiveCents)

  /** Field validation of the payload: the amount check; read-only fields are ignored. */
  function Validate(p: DonationPayload): (r: Result<ValidatedDonation, string>)
    ensures r.Success? <==> p.amount > 0
    ensures r.Success? ==> r.value.amount == p.amount
    ensures r.Failure? ==> r.error == AmountMessage
  {
    match ValidateAmount(p.amount)
    case Success(v) => Success(ValidatedDonation(v))
    case Failure(msg) => Failure(msg)
  }

  /** Two payloads with the same amount validate alike, whatever read-only fields they carry. */
  lemma ReadOnlyFieldsIgnored(p: DonationPayload, q: DonationPayload)
    requires p.amount == q.amount
    ensures Validate(p) == Validate(q)
  {
  }

  /** The donation as the serializer renders it. */
  datatype DonationView = DonationView(
    id: nat,
    event: nat,
    eventTitle: string,
    donor: string,
    donorEmail: string,
    amount: int,
    date: int)

  /** Rendering a donation: `donor`, `donor_email` and `event_title` come from the linked records. */
  function Render(d: Donation, donor: User, event: Event): (r: DonationView)
    requires d.donorId == donor.id && d.eventId == event.id
    ensures r.id == d.id && r.event == event.id && r.amount == d.amount && r.date == d.created
    ensures r.donor == donor.username && r.donorEmail == donor.email && r.eventTitle == event.title
  {
    DonationView(d.id, d.eventId, event.title, donor.username, donor.email, d.amount, d.created)
  }

  /** The donation table, with the identifier the database assigns next. */
  class DonationStore {
    var donations: seq<Donation>
    var nextId: nat

    ghost predicate Valid()
      reads this
    {
      AllPositive(donations) &&
      forall i :: 0 <= i < |donations| ==> donations[i].id < nextId
    }

    constructor ()
      ensures Valid()
      ensures donations == [] && nextId == 0
    {
      donations := [];
      nextId := 0;
    }

    /**
     `DonationSerializer.create`: the donor is the request user and the event
     the one named by the path; the new row is the only change.
     */
    method Create(data: ValidatedDonation, caller: User, event: Event, now: int) returns (d: Donation)
      requires Valid()
      modifies this
      ensures Valid()
      ensures d == Donation(old(nextId), event.id, caller.id, data.amount, now)
      ensures donations == old(donations) + [d]
      ensures forall k :: 0 <= k < |old(donations)| ==> old(donations)[k].id != d.id
      ensures nextId == old(nextId) + 1
    {
      d := Donation(nextId, event.id, caller.id, data.amount, now);
      donations := donations + [d];
      nextId := nextId + 1;
    }

    /**
     A POST to the donation endpoint of `event`: the view's `IsAuthenticated`
     check, then validation of the payload, then creation. A refused or
     invalid request stores nothing.
     */
    method AddDonation(caller: User, event: Event, payload: DonationPayload, now: int)
      returns (r: Result<Donation, string>)
      requires Valid()
      modifies this
      ensures Valid()
      ensures r.Success? <==> caller.isAuthenticated && payload.amount > 0
      ensures r.Failure? ==> r.error == if caller.isAuthenticated then AmountMessage else NotAuthenticatedMessage
      ensures r.Failure? ==> donations == old(donations) && nextId == old(nextId)
      ensures r.Success? ==> donations == old(donations) + [r.value]
      ensures r.Success? ==> r.value.donorId == caller.id && r.value.eventId == event.id
      ensures r.Success? ==> r.value.amount == payload.amount > 0 && r.value.created == now
      ensures r.Success? ==> forall k :: 0 <= k < |old(donations)| ==> old(donations)[k].id != r.value.id
      ensures r.Success? ==> forall e: Event ::
        TotalDonations(e, donations) == old(TotalDonations(e, donations)) + (if e.id == event.id then payload.amount else 0)
    {
      if !caller.isAuthenticated {
        return Failure(NotAuthenticatedMessage);
      }
      match Validate(payload)
      case Failure(msg) =>
        r := Failure(msg);
      case Success(data) =>
        var d := Create(data, caller, event, now);
        forall e: Event
          ensures TotalDonations(e, donations) == old(TotalDonations(e, donations)) + (if e.id == event.id then payload.amount else 0)
        {
          TotalAfterAppend(e, old(donations), d);
        }
        r := Success(d);
    }
  }
}
