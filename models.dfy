/**
 The persisted records (core/models.py) and the user identity they refer to.
 Dates are ordinal day numbers, the creation time of a donation is an
 integer timestamp, and amounts are integer cents (the amount column holds
 at most 10 digits, 2 of them after the decimal point).
 */
module Models {
  import opened Results

  /** A fundraising event. The image asset lives in external storage and is not modelled. */
  datatype Event = Event(id: nat, title: string, description: string, date: int, location: Option<string>)

  /** A donation of `amount` cents by user `donorId` to event `eventId`, created at `created`. */
  datatype Donation = Donation(id: nat, eventId: nat, donorId: nat, amount: int, created: int)

  /** The authenticated identity of a request (the framework's user), with its role flags. */
  datatype User = User(
    id: nat,
    username: string,
    email: string,
    isAuthenticated: bool,
    isStaff: bool,
    isSuperuser: bool,
    groups: seq<string>)

  /**
   The error detail of a request refused by the framework's `IsAuthenticated`
   permission, which the donation, profile and summary endpoints require.
   */
  const NotAuthenticatedMessage: string := "Authentication credentials were not provided."

  /**
   The message of the `DoesNotExist` error the event lookup of the donation
   endpoint raises for an id with no event.
   */
  const EventMissingMessage: string := "Event matching query does not exist."

  /** Ordering key of `order_by('-date')` on events. */
  function EventDay(e: Event): int
  {
    e.date
  }

  /** Ordering key of `order_by('-date')` on donations. */
  function DonationCreated(d: Donation): int
  {
    d.created
  }

  /** The stored invariant: every donation amount is positive. */
  ghost predicate AllPositive(ds: seq<Donation>)
  {
    forall i :: 0 <= i < |ds| ==> ds[i].amount > 0
  }
}
