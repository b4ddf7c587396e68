/** The mock store of lib/mock-db.ts: three collections held in memory, the
    seed a missing data file is created with, the lookups (pure `find` /
    `filter` / `map` expressions over the collections) and the inserts and the
    delete that change them in place. Timestamps are integer milliseconds. */
module MockDb {
  import opened Seqs
  import Decimal

  datatype User = User(id: int, username: string, email: string)

  datatype EventType = EventType(
    id: int, title: string, slug: string, duration: int, description: string, userId: int)

  datatype Booking = Booking(
    id: int, bookerName: string, bookerEmail: string,
    startTime: int, endTime: int, eventTypeId: int, uid: string)

  /** A booking as `getBookingsForUser` hands it out: the stored record, the
      event type it was joined with, and the title shown for it. */
  datatype BookingView = BookingView(booking: Booking, eventType: Option<EventType>, eventTypeTitle: string)

  const UnknownEvent: string := "Unknown Event"

  function EventTypeIds(ets: seq<EventType>): seq<int> {
    seq(|ets|, i requires 0 <= i < |ets| => ets[i].id)
  }

  function BookingIds(bs: seq<Booking>): seq<int> {
    seq(|bs|, i requires 0 <= i < |bs| => bs[i].id)
  }

  function Bookings(vs: seq<BookingView>): seq<Booking> {
    seq(|vs|, i requires 0 <= i < |vs| => vs[i].booking)
  }

  /** `Math.max(0, ...ids)`. */
  function MaxOrZero(ids: seq<int>): (m: int)
    ensures 0 <= m
    ensures forall i :: 0 <= i < |ids| ==> ids[i] <= m
    ensures m == 0 || m in ids
  {
    if ids == [] then 0
    else
      var m := MaxOrZero(ids[1..]);
      assert m in ids[1..] ==> m in ids;
      if ids[0] > m then ids[0] else m
  }

  /** The id an insert assigns: above every existing id, and the least such
      number that is at least 1 and one past 0 or an existing id. */
  function NextId(ids: seq<int>): (n: int)
    ensures 1 <= n
    ensures forall i :: 0 <= i < |ids| ==> ids[i] < n
    ensures n == 1 || n - 1 in ids
  {
    MaxOrZero(ids) + 1
  }

  ghost predicate DistinctIds(ids: seq<int>) {
    forall i, j :: 0 <= i < j < |ids| ==> ids[i] != ids[j]
  }

  /** Appending the next id keeps a collection's ids pairwise distinct. */
  lemma NextIdKeepsDistinct(ids: seq<int>)
    requires DistinctIds(ids)
    ensures DistinctIds(ids + [NextId(ids)])
  {
  }

  /** The `uid-<id>` identifier a new booking receives: the prefix `uid-`
      followed by the id's decimal digits, with no leading zero, which read
      back as the id. */
  function Uid(id: nat): (u: string)
    ensures |u| > 4 && u[..4] == "uid-"
    ensures Decimal.AllDigits(u[4..]) && Decimal.FromDigits(u[4..]) == id
    ensures |u| > 5 ==> u[4] != '0'
  {
    var digits := Decimal.ToDecimal(id);
    assert ("uid-" + digits)[4..] == digits;
    "uid-" + digits
  }

  /** Distinct booking ids give distinct uids. */
  lemma UidInjective(a: nat, b: nat)
    ensures Uid(a) == Uid(b) ==> a == b
  {
    if Uid(a) == Uid(b) {
      assert Uid(a)[4..] == Decimal.ToDecimal(a);
      assert Uid(b)[4..] == Decimal.ToDecimal(b);
    }
  }

  /** `et?.title || "Unknown Event"` for an event type that was found: an
      empty title is falsy and also falls back. */
  function ShownTitle(et: Option<EventType>): (t: string)
    ensures t == UnknownEvent <==> et.None? || et.value.title in {"", UnknownEvent}
    ensures t != UnknownEvent ==> et.Some? && t == et.value.title
  {
    if et.Some? && et.value.title != "" then et.value.title else UnknownEvent
  }

  /** Whether some event type in `ets` belongs to `userId` and has id `eventTypeId`. */
  predicate OwnsEventType(ets: seq<EventType>, userId: int, eventTypeId: int) {
    exists e :: e in ets && e.userId == userId && e.id == eventTypeId
  }

  /** `k` is the position of the first booking with id `id`. */
  ghost predicate FirstWithId(bs: seq<Booking>, k: int, id: int) {
    0 <= k < |bs| && bs[k].id == id && forall j :: 0 <= j < k ==> bs[j].id != id
  }

  /** Removing position `k` (`splice(k, 1)`) drops exactly that element and
      keeps every other one, in order. */
  lemma {:induction false} RemoveAtKeepsOthers(bs: seq<Booking>, k: int)
    requires 0 <= k < |bs|
    ensures var r := bs[..k] + bs[k + 1..];
            && |r| == |bs| - 1
            && multiset(r) + multiset{bs[k]} == multiset(bs)
            && forall i :: 0 <= i < |r| ==> r[i] == bs[if i < k then i else i + 1]
  {
    assert bs == bs[..k] + [bs[k]] + bs[k + 1..];
  }

  lemma OwnedIffIdListed(ets: seq<EventType>, userId: int, eventTypeId: int)
    ensures var mine := Filter(ets, (e: EventType) => e.userId == userId);
            eventTypeId in EventTypeIds(mine) <==> OwnsEventType(ets, userId, eventTypeId)
  {
    var mine := Filter(ets, (e: EventType) => e.userId == userId);
    if eventTypeId in EventTypeIds(mine) {
      var i :| 0 <= i < |mine| && EventTypeIds(mine)[i] == eventTypeId;
      assert mine[i] in mine;
    }
    if OwnsEventType(ets, userId, eventTypeId) {
      var e :| e in ets && e.userId == userId && e.id == eventTypeId;
      assert e in mine;
      var i :| 0 <= i < |mine| && mine[i] == e;
      assert EventTypeIds(mine)[i] == eventTypeId;
    }
  }

  /** Joins one booking with the first of `mine` carrying its event-type id
      (none when no event type has it) and the title shown for that. */
  function Enrich(b: Booking, mine: seq<EventType>): (v: BookingView)
    ensures v.booking == b
    ensures v.eventType.None? <==> forall i :: 0 <= i < |mine| ==> mine[i].id != b.eventTypeId
    ensures v.eventType.Some? ==> exists k :: 0 <= k < |mine| && mine[k] == v.eventType.value &&
                                             mine[k].id == b.eventTypeId &&
                                             forall j :: 0 <= j < k ==> mine[j].id != b.eventTypeId
    ensures v.eventTypeTitle == ShownTitle(v.eventType)
  {
    var et := Find(mine, (e: EventType) => e.id == b.eventTypeId);
    BookingView(b, et, ShownTitle(et))
  }

  /** Facts about joining one booking whose event type id is among the
      user's event types. */
  lemma EnrichListed(b: Booking, ets: seq<EventType>, userId: int)
    requires b.eventTypeId in EventTypeIds(Filter(ets, (e: EventType) => e.userId == userId))
    ensures var v := Enrich(b, Filter(ets, (e: EventType) => e.userId == userId));
            && v.booking == b
            && v.eventType.Some?
            && v.eventType.value in ets
            && v.eventType.value.userId == userId
            && v.eventType.value.id == b.eventTypeId
            && v.eventTypeTitle == ShownTitle(v.eventType)
  {
  }

  /** The join behind `getBookingsForUser`: keep the bookings whose event
      type id is one of the user's event-type ids, and join each with the
      first of the user's event types carrying that id. */
  function BookingsForUser(ets: seq<EventType>, bs: seq<Booking>, userId: int): (r: seq<BookingView>)
    ensures |r| <= |bs|
    ensures forall i :: 0 <= i < |r| ==> r[i].booking in bs
  {
    var mine := Filter(ets, (e: EventType) => e.userId == userId);
    var ids := EventTypeIds(mine);
    var kept := Filter(bs, (b: Booking) => b.eventTypeId in ids);
    seq(|kept|, i requires 0 <= i < |kept| => Enrich(kept[i], mine))
  }

  /** `getBookingsForUser` returns exactly the bookings that belong to one of
      the user's event types, each as often as stored, in storage order. */
  lemma BookingsForUserSelects(ets: seq<EventType>, bs: seq<Booking>, userId: int)
    ensures Bookings(BookingsForUser(ets, bs, userId)) ==
            Filter(bs, (b: Booking) => OwnsEventType(ets, userId, b.eventTypeId))
  {
    var mine := Filter(ets, (e: EventType) => e.userId == userId);
    var ids := EventTypeIds(mine);
    forall i | 0 <= i < |bs|
      ensures (bs[i].eventTypeId in ids) == OwnsEventType(ets, userId, bs[i].eventTypeId)
    {
      OwnedIffIdListed(ets, userId, bs[i].eventTypeId);
    }
    FilterCongruent(bs, (b: Booking) => b.eventTypeId in ids,
                    (b: Booking) => OwnsEventType(ets, userId, b.eventTypeId));
    var kept := Filter(bs, (b: Booking) => b.eventTypeId in ids);
    assert Bookings(BookingsForUser(ets, bs, userId)) == kept;
  }

  /** Every booking `getBookingsForUser` returns is joined with one of the
      user's event types that has the booking's event-type id, and is shown
      under that event type's title (or "Unknown Event" when the title is
      empty). */
  lemma BookingsForUserJoined(ets: seq<EventType>, bs: seq<Booking>, userId: int)
    ensures var r := BookingsForUser(ets, bs, userId);
            forall i :: 0 <= i < |r| ==>
              && r[i].eventType.Some?
              && r[i].eventType.value in ets
              && r[i].eventType.value.userId == userId
              && r[i].eventType.value.id == r[i].booking.eventTypeId
              && r[i].eventTypeTitle == ShownTitle(r[i].eventType)
  {
    var r := BookingsForUser(ets, bs, userId);
    var mine := Filter(ets, (e: EventType) => e.userId == userId);
    var ids := EventTypeIds(mine);
    var kept := Filter(bs, (b: Booking) => b.eventTypeId in ids);
    forall i | 0 <= i < |r|
      ensures r[i].eventType.Some? && r[i].eventType.value in ets
      ensures r[i].eventType.value.userId == userId
      ensures r[i].eventType.value.id == r[i].booking.eventTypeId
    {
      assert kept[i] in kept;
      EnrichListed(kept[i], ets, userId);
    }
  }

  class Store {
    var users: seq<User>
    var eventTypes: seq<EventType>
    var bookings: seq<Booking>

    /** The store a fresh data file is created with. */
    constructor Seeded()
      ensures users == [User(1, "kavya", "kavya@example.com")]
      ensures eventTypes == [EventType(1, "30 Min Meeting", "30-min", 30, "Intro", 1)]
      ensures bookings == []
    {
      users := [User(1, "kavya", "kavya@example.com")];
      eventTypes := [EventType(1, "30 Min Meeting", "30-min", 30, "Intro", 1)];
      bookings := [];
    }

    /** `db.getUser`: the first user with that id, or null. */
    function GetUser(id: int): (r: Option<User>)
      reads this
      ensures r.None? <==> forall i :: 0 <= i < |users| ==> users[i].id != id
      ensures r.Some? ==> exists k :: 0 <= k < |users| && users[k] == r.value && r.value.id == id &&
                                      forall j :: 0 <= j < k ==> users[j].id != id
    {
      Find(users, (u: User) => u.id == id)
    }

    /** `db.getAllEventTypes`: the user's event types, each as often as it is
        stored; `filter` keeps storage order (Seqs.FilterConcat). */
    function GetAllEventTypes(userId: int): (r: seq<EventType>)
      reads this
      ensures forall e :: e in r <==> e in eventTypes && e.userId == userId
      ensures forall e :: multiset(r)[e] == if e.userId == userId then multiset(eventTypes)[e] else 0
    {
      FilterMultiplicity(eventTypes, (e: EventType) => e.userId == userId);
      Filter(eventTypes, (e: EventType) => e.userId == userId)
    }

    ghost predicate FirstUserNamed(k: int, username: string)
      reads this
    {
      0 <= k < |users| && users[k].username == username &&
      forall j :: 0 <= j < k ==> users[j].username != username
    }

    ghost predicate FirstEventTypeOf(m: int, userId: int, slug: string)
      reads this
    {
      0 <= m < |eventTypes| && eventTypes[m].userId == userId && eventTypes[m].slug == slug &&
      forall j :: 0 <= j < m ==> !(eventTypes[j].userId == userId && eventTypes[j].slug == slug)
    }

    /** `db.getEventTypeBySlug`: null when no user has that username;
        otherwise the first event type of the first such user with that slug,
        or null when that user has none. */
    function GetEventTypeBySlug(username: string, slug: string): (r: Option<EventType>)
      reads this
      ensures (forall i :: 0 <= i < |users| ==> users[i].username != username) ==> r.None?
      ensures forall k :: FirstUserNamed(k, username) ==>
                (r.None? <==> forall i :: 0 <= i < |eventTypes| ==>
                                !(eventTypes[i].userId == users[k].id && eventTypes[i].slug == slug))
      ensures r.Some? ==> exists k, m :: FirstUserNamed(k, username) && FirstEventTypeOf(m, users[k].id, slug) &&
                                         r.value == eventTypes[m]
    {
      var user := Find(users, (u: User) => u.username == username);
      if user.None? then None
      else
        var owner := user.value.id;
        Find(eventTypes, (e: EventType) => e.userId == owner && e.slug == slug)
    }

    /** `db.getBookingsForUser` over the current collections: exactly the
        stored bookings of the user's event types, in storage order, each
        joined with one of those event types. */
    function GetBookingsForUser(userId: int): (r: seq<BookingView>)
      reads this
      ensures var ets := eventTypes;
              Bookings(r) == Filter(bookings, (b: Booking) => OwnsEventType(ets, userId, b.eventTypeId))
      ensures forall i :: 0 <= i < |r| ==>
                && r[i].eventType.Some?
                && r[i].eventType.value in eventTypes
                && r[i].eventType.value.userId == userId
                && r[i].eventType.value.id == r[i].booking.eventTypeId
    {
      BookingsForUserSelects(eventTypes, bookings, userId);
      BookingsForUserJoined(eventTypes, bookings, userId);
      BookingsForUser(eventTypes, bookings, userId)
    }

    /** `db.createEventType`: appends the record with the next id and returns it. */
    method CreateEventType(title: string, slug: string, duration: int, description: string, userId: int)
      returns (et: EventType)
      modifies this
      ensures et == EventType(NextId(EventTypeIds(old(eventTypes))), title, slug, duration, description, userId)
      ensures forall i :: 0 <= i < |old(eventTypes)| ==> old(eventTypes)[i].id < et.id
      ensures eventTypes == old(eventTypes) + [et]
      ensures DistinctIds(EventTypeIds(old(eventTypes))) ==> DistinctIds(EventTypeIds(eventTypes))
      ensures users == old(users) && bookings == old(bookings)
    {
      var ids := EventTypeIds(eventTypes);
      assert forall i :: 0 <= i < |eventTypes| ==> eventTypes[i].id == ids[i];
      et := EventType(NextId(ids), title, slug, duration, description, userId);
      eventTypes := eventTypes + [et];
      assert EventTypeIds(eventTypes) == ids + [NextId(ids)];
      if DistinctIds(ids) {
        NextIdKeepsDistinct(ids);
      }
    }

    /** `db.createBooking`: appends the record with the next id and the uid
        derived from it, and returns it. */
    method CreateBooking(bookerName: string, bookerEmail: string, startTime: int, endTime: int, eventTypeId: int)
      returns (b: Booking)
      modifies this
      ensures var id := NextId(BookingIds(old(bookings)));
              b == Booking(id, bookerName, bookerEmail, startTime, endTime, eventTypeId, Uid(id))
      ensures forall i :: 0 <= i < |old(bookings)| ==> old(bookings)[i].id < b.id
      ensures bookings == old(bookings) + [b]
      ensures DistinctIds(BookingIds(old(bookings))) ==> DistinctIds(BookingIds(bookings))
      ensures users == old(users) && eventTypes == old(eventTypes)
    {
      var ids := BookingIds(bookings);
      assert forall i :: 0 <= i < |bookings| ==> bookings[i].id == ids[i];
      var id := NextId(ids);
      b := Booking(id, bookerName, bookerEmail, startTime, endTime, eventTypeId, Uid(id));
      bookings := bookings + [b];
      assert BookingIds(bookings) == ids + [id];
      if DistinctIds(ids) {
        NextIdKeepsDistinct(ids);
      }
    }

    /** `db.deleteBooking`: removes the first booking with that id and reports
        true, or reports false and changes nothing. */
    method DeleteBooking(id: int) returns (found: bool)
      modifies this
      ensures found <==> exists i :: 0 <= i < |old(bookings)| && old(bookings)[i].id == id
      ensures found ==> exists k :: FirstWithId(old(bookings), k, id) &&
                                    bookings == old(bookings)[..k] + old(bookings)[k + 1..]
      ensures !found ==> bookings == old(bookings)
      ensures users == old(users) && eventTypes == old(eventTypes)
    {
      var index := FindIndex(bookings, (b: Booking) => b.id == id);
      if index != -1 {
        assert FirstWithId(bookings, index, id);
        bookings := bookings[..index] + bookings[index + 1..];
        found := true;
      } else {
        found := false;
      }
    }
  }
}
