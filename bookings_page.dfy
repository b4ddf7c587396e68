/** The bookings page splits the host's bookings at the current instant:
    those starting at or after `now` are upcoming, those starting before it
    are past. `now` is a parameter, in milliseconds. */
module BookingsPage {
  import opened Seqs
  import opened MockDb

  function Upcoming(all: seq<BookingView>, now: int): (r: seq<BookingView>)
    ensures forall v :: v in r <==> v in all && v.booking.startTime >= now
  {
    Filter(all, (v: BookingView) => v.booking.startTime >= now)
  }

  function Past(all: seq<BookingView>, now: int): (r: seq<BookingView>)
    ensures forall v :: v in r <==> v in all && v.booking.startTime < now
  {
    Filter(all, (v: BookingView) => v.booking.startTime < now)
  }

  /** The two lists partition the bookings: together they hold every booking
      exactly as often as the full list does, so their lengths add up. */
  lemma UpcomingPastPartition(all: seq<BookingView>, now: int)
    ensures multiset(Upcoming(all, now)) + multiset(Past(all, now)) == multiset(all)
    ensures |Upcoming(all, now)| + |Past(all, now)| == |all|
  {
    FilterSplit(all, (v: BookingView) => v.booking.startTime >= now, (v: BookingView) => v.booking.startTime < now);
    assert |multiset(Upcoming(all, now)) + multiset(Past(all, now))| == |all|;
  }

  /** Each booking is in exactly one of the two lists; one starting exactly
      at `now` is upcoming. */
  lemma InExactlyOne(all: seq<BookingView>, now: int, v: BookingView)
    requires v in all
    ensures v in Upcoming(all, now) <==> v !in Past(all, now)
    ensures v.booking.startTime == now ==> v in Upcoming(all, now)
  {
  }

  /** Both lists keep the order of the full list: splitting a concatenation
      splits each part. */
  lemma {:induction false} SplitKeepsOrder(a: seq<BookingView>, b: seq<BookingView>, now: int)
    ensures Upcoming(a + b, now) == Upcoming(a, now) + Upcoming(b, now)
    ensures Past(a + b, now) == Past(a, now) + Past(b, now)
  {
    FilterConcat(a, b, (v: BookingView) => v.booking.startTime >= now);
    FilterConcat(a, b, (v: BookingView) => v.booking.startTime < now);
  }
}
