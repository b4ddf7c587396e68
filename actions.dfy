/** The server actions of app/actions.ts, as methods that drive a store.
    Each returns the `success` flag of its result object. The store cannot
    fail, so the `catch` branches (`success: false`) are never taken. */
module Actions {
  import opened Seqs
  import opened MockDb

  const MsPerMinute: int := 60 * 1000

  /** `new Date(startTime.getTime() + duration * 60 * 1000)`, in milliseconds:
      the booking lasts exactly `duration` whole minutes, so the duration can
      be read back from the two instants, and it ends after it starts exactly
      when the duration is positive. */
  function EndTime(startTime: int, duration: int): (endTime: int)
    ensures (endTime - startTime) % MsPerMinute == 0
    ensures (endTime - startTime) / MsPerMinute == duration
    ensures endTime > startTime <==> duration > 0
  {
    startTime + duration * MsPerMinute
  }

  /** `description || ""` for a `string | null`: null and the empty string
      both give "", any other text is kept. */
  function NormaliseDescription(description: Option<string>): (d: string)
    ensures d == "" <==> description.None? || description.value == ""
    ensures d != "" ==> description == Some(d)
  {
    if description.Some? then description.value else ""
  }

  /** `createBooking`: stores the booking with the end time the caller's
      duration gives, without looking up the event type and without any
      overlap check, and reports success. */
  method CreateBooking(store: Store, eventTypeId: int, name: string, email: string, startTime: int, duration: int)
    returns (success: bool)
    modifies store
    ensures success
    ensures var id := NextId(BookingIds(old(store.bookings)));
            store.bookings == old(store.bookings) +
              [Booking(id, name, email, startTime, EndTime(startTime, duration), eventTypeId, Uid(id))]
    ensures store.users == old(store.users) && store.eventTypes == old(store.eventTypes)
  {
    var endTime := EndTime(startTime, duration);
    var _ := store.CreateBooking(name, email, startTime, endTime, eventTypeId);
    success := true;
  }

  /** `cancelBooking`: deletes the first booking with that id, if any, and
      reports success either way. */
  method CancelBooking(store: Store, bookingId: int) returns (success: bool)
    modifies store
    ensures success
    ensures (forall i :: 0 <= i < |old(store.bookings)| ==> old(store.bookings)[i].id != bookingId) ==>
              store.bookings == old(store.bookings)
    ensures forall k :: FirstWithId(old(store.bookings), k, bookingId) ==>
              store.bookings == old(store.bookings)[..k] + old(store.bookings)[k + 1..]
    ensures store.users == old(store.users) && store.eventTypes == old(store.eventTypes)
  {
    var _ := store.DeleteBooking(bookingId);
    success := true;
  }

  /** `createEventType`: stores the event type for user 1 with the
      description normalised to "" when null, without any slug-uniqueness
      check, and reports success (the source then redirects). */
  method CreateEventType(store: Store, title: string, slug: string, duration: int, description: Option<string>)
    returns (success: bool)
    modifies store
    ensures success
    ensures store.eventTypes == old(store.eventTypes) +
              [EventType(NextId(EventTypeIds(old(store.eventTypes))), title, slug, duration,
                         NormaliseDescription(description), 1)]
    ensures store.users == old(store.users) && store.bookings == old(store.bookings)
  {
    var _ := store.CreateEventType(title, slug, duration, NormaliseDescription(description), 1);
    success := true;
  }

  /** 2024-01-01T10:00:00Z in milliseconds since the epoch. */
  const TenAm: int := 1704103200000

  /** On the seed store, a 30-minute booking at 10:00, an overlapping one at
      10:15 and an adjacent one at 10:30 all succeed and are all stored. */
  method OverlappingBookingsAccepted() returns (booked: seq<bool>, bookings: seq<Booking>)
    ensures booked == [true, true, true]
    ensures |bookings| == 3
    ensures bookings[0] == Booking(1, "Alice", "a@x.com", TenAm, TenAm + 1800000, 1, "uid-1")
    ensures bookings[1] == Booking(2, "Bob", "b@x.com", TenAm + 900000, TenAm + 2700000, 1, "uid-2")
    ensures bookings[2] == Booking(3, "Carol", "c@x.com", TenAm + 1800000, TenAm + 3600000, 1, "uid-3")
  {
    var store := new Store.Seeded();
    var ok1 := CreateBooking(store, 1, "Alice", "a@x.com", TenAm, 30);
    assert Uid(1) == "uid-1";
    var ok2 := CreateBooking(store, 1, "Bob", "b@x.com", TenAm + 900000, 30);
    assert BookingIds(store.bookings) == [1, 2];
    assert [1, 2][1..] == [2] && [2][1..] == [];
    assert Uid(2) == "uid-2" && Uid(3) == "uid-3";
    var ok3 := CreateBooking(store, 1, "Carol", "c@x.com", TenAm + 1800000, 30);
    booked := [ok1, ok2, ok3];
    bookings := store.bookings;
  }

  /** On the seed store with one booking, cancelling it succeeds and removes
      it, and cancelling the same id again still succeeds. */
  method CancelAlwaysSucceeds() returns (first: bool, afterFirst: seq<Booking>, second: bool, afterSecond: seq<Booking>)
    ensures first && second
    ensures afterFirst == [] && afterSecond == []
  {
    var store := new Store.Seeded();
    var _ := CreateBooking(store, 1, "Alice", "a@x.com", TenAm, 30);
    assert FirstWithId(store.bookings, 0, 1);
    first := CancelBooking(store, 1);
    afterFirst := store.bookings;
    second := CancelBooking(store, 1);
    afterSecond := store.bookings;
  }

  /** On the seed store, two event types with the same slug are both stored,
      under distinct ids, for user 1. */
  method DuplicateSlugAccepted() returns (first: bool, second: bool, eventTypes: seq<EventType>)
    ensures first && second
    ensures |eventTypes| == 3
    ensures eventTypes[1] == EventType(2, "Chat", "chat", 15, "", 1)
    ensures eventTypes[2] == EventType(3, "Chat again", "chat", 20, "Second", 1)
  {
    var store := new Store.Seeded();
    first := CreateEventType(store, "Chat", "chat", 15, None);
    assert EventTypeIds(store.eventTypes) == [1, 2];
    assert [1, 2][1..] == [2] && [2][1..] == [];
    second := CreateEventType(store, "Chat again", "chat", 20, Some("Second"));
    eventTypes := store.eventTypes;
  }
}
