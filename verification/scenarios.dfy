/**
 * Concrete scenarios from the repository's tests, stated about the model for
 * an arbitrary day (the tests use today's date).
 */
module SchedulingScenarios {
  import opened Model
  import opened SchedulingUtils
  import opened MinimalSchedulingService

  const P1: Email := "test1@test.com"
  const P2: Email := "test2@test.com"

  /** The API test's two persons. */
  function ApiPersons(): seq<Person>
  {
    [Person("Test User 1", P1), Person("Test User 2", P2)]
  }

  /** The API test's nine meetings on the given day: person 1 alone at hours
      1, 2, 3 and 9, person 2 alone at 5, 6 and 9, both together at 8 and 11. */
  function ApiMeetings(day: Day): seq<Meeting>
  {
    var d := day * 24;
    [ Meeting({P1}, d + 1), Meeting({P1}, d + 2), Meeting({P1}, d + 3)
    , Meeting({P2}, d + 5), Meeting({P2}, d + 6), Meeting({P1, P2}, d + 8)
    , Meeting({P1}, d + 9), Meeting({P2}, d + 9), Meeting({P1, P2}, d + 11) ]
  }

  /** An engine that keeps the invariant and indexes exactly the API test's
      meetings, as the constructor leaves it. */
  ghost predicate ApiLoaded(s: Engine, day: Day)
  {
    && Valid(s)
    && forall m: Meeting :: InBucket(s.meetings, m.startTime, m) <==> m in ApiMeetings(day)
  }

  /** The reservations the nine meetings produce: person 1 at hours 1, 2, 3,
      8, 9, 11 and person 2 at hours 5, 6, 8, 9, 11. */
  function ApiReserved(day: Day): ReservedMap
  {
    var d := day * 24;
    map[P1 := {d + 1, d + 2, d + 3, d + 8, d + 9, d + 11}, P2 := {d + 5, d + 6, d + 8, d + 9, d + 11}]
  }

  /** A loaded engine holds exactly the reservations of ApiReserved. */
  lemma ApiLoadedReservations(s: Engine, day: Day, e: Email, t: Slot)
    requires ApiLoaded(s, day)
    ensures IsReserved(s.reserved, e, t) <==> IsReserved(ApiReserved(day), e, t)
  {
    var ms := ApiMeetings(day);
    ValidIndicesInLockStep(s, e, t);
    if IsReserved(s.reserved, e, t) {
      var m: Meeting :| InBucket(s.meetings, m.startTime, m) && m.startTime == t && e in m.persons;
      assert m in ms;
    }
    if IsReserved(ApiReserved(day), e, t) {
      var k := ApiWitness(day, e, t);
      assert ms[k] in ms;
      assert InBucket(s.meetings, ms[k].startTime, ms[k]);
    }
  }

  /** The reservation index agrees with ApiReserved on every (email, slot). */
  ghost predicate HoldsApiReservations(r: ReservedMap, day: Day)
  {
    forall e, t :: IsReserved(r, e, t) <==> IsReserved(ApiReserved(day), e, t)
  }

  /** A loaded engine's reservation index agrees with ApiReserved everywhere. */
  lemma ApiLoadedHolds(s: Engine, day: Day)
    requires ApiLoaded(s, day)
    ensures HoldsApiReservations(s.reserved, day)
  {
    forall e, t
      ensures IsReserved(s.reserved, e, t) <==> IsReserved(ApiReserved(day), e, t)
    {
      ApiLoadedReservations(s, day, e, t);
    }
  }

  /** The index of a meeting behind an ApiReserved reservation. */
  function ApiWitness(day: Day, e: Email, t: Slot): (k: int)
    requires IsReserved(ApiReserved(day), e, t)
    ensures 0 <= k < 9
    ensures ApiMeetings(day)[k].startTime == t && e in ApiMeetings(day)[k].persons
  {
    var h := t - day * 24;
    if h == 1 then 0 else if h == 2 then 1 else if h == 3 then 2
    else if h == 5 then 3 else if h == 6 then 4 else if h == 8 then 5
    else if h == 9 then (if e == P1 then 6 else 7)
    else 8
  }

  /** The constructor accepts the API test's data. */
  method ApiBootstrap(day: Day) returns (s: Engine)
    ensures ApiLoaded(s, day)
    ensures s.persons == map[P1 := Person("Test User 1", P1), P2 := Person("Test User 2", P2)]
  {
    ApiDataAccepted(day);
    var r := Bootstrap(ApiPersons(), ApiMeetings(day));
    s := r.value;
    ApiDirectory(s.persons);
  }

  /** The API test's persons have distinct emails, and every attendee of its
      meetings is one of them. */
  lemma ApiDataAccepted(day: Day)
    ensures DistinctEmails(ApiPersons())
    ensures AttendeesKnown(ApiMeetings(day), EmailsOf(ApiPersons()))
  {
    var ps := ApiPersons();
    assert ps[0].email == P1 && ps[1].email == P2;
    assert P1 in EmailsOf(ps) && P2 in EmailsOf(ps);
  }

  /** A directory registering the API test's persons under their emails and
      nothing else is the two-entry map. */
  lemma ApiDirectory(persons: map<Email, Person>)
    requires persons.Keys == EmailsOf(ApiPersons())
    requires forall i :: 0 <= i < |ApiPersons()| ==> persons[ApiPersons()[i].email] == ApiPersons()[i]
    ensures persons == map[P1 := Person("Test User 1", P1), P2 := Person("Test User 2", P2)]
  {
    var ps := ApiPersons();
    assert ps[0].email == P1 && ps[1].email == P2;
    assert persons[P1] == ps[0] && persons[P2] == ps[1];
    assert EmailsOf(ps) == {P1, P2};
  }

  /** Hours 4, 5, 6, 7 and 10 of [1, 12) are the ones free for person 1. */
  function ApiFreeForPerson1(day: Day): seq<Slot>
  {
    var d := day * 24;
    [d + 4, d + 5, d + 6, d + 7, d + 10]
  }

  /** Hours 1, 2, 3, 4, 7 and 10 of [1, 12) are the ones free for person 2. */
  function ApiFreeForPerson2(day: Day): seq<Slot>
  {
    var d := day * 24;
    [d + 1, d + 2, d + 3, d + 4, d + 7, d + 10]
  }

  /** Hours 4, 7 and 10 of [1, 12) are the ones free for both. */
  function ApiFreeForBoth(day: Day): seq<Slot>
  {
    var d := day * 24;
    [d + 4, d + 7, d + 10]
  }

  /** Given the nine meetings' reservations, person 1's from hour 1 on. */
  lemma ApiReservedPerson1(r: ReservedMap, day: Day)
    requires HoldsApiReservations(r, day)
    ensures var d := day * 24;
            ReservedFrom(r, P1, SlotOf(day, 1)) == {d + 1, d + 2, d + 3, d + 8, d + 9, d + 11}
    ensures |ReservedFrom(r, P1, SlotOf(day, 1))| == 6
  {
    assert forall t :: t in ReservedOf(r, P1) <==> t in ApiReserved(day)[P1];
    ApiCountPerson1(ReservedFrom(r, P1, SlotOf(day, 1)), day * 24);
  }

  /** Given the nine meetings' reservations, person 2's from hour 1 on. */
  lemma ApiReservedPerson2(r: ReservedMap, day: Day)
    requires HoldsApiReservations(r, day)
    ensures var d := day * 24;
            ReservedFrom(r, P2, SlotOf(day, 1)) == {d + 5, d + 6, d + 8, d + 9, d + 11}
    ensures |ReservedFrom(r, P2, SlotOf(day, 1))| == 5
  {
    assert forall t :: t in ReservedOf(r, P2) <==> t in ApiReserved(day)[P2];
    ApiCountPerson2(ReservedFrom(r, P2, SlotOf(day, 1)), day * 24);
  }

  /** Person 1's six reserved hours are distinct slots. */
  lemma ApiCountPerson1(a: set<Slot>, d: Slot)
    requires a == {d + 1, d + 2, d + 3, d + 8, d + 9, d + 11}
    ensures |a| == 6
  {
  }

  /** Person 2's five reserved hours are distinct slots. */
  lemma ApiCountPerson2(a: set<Slot>, d: Slot)
    requires a == {d + 5, d + 6, d + 8, d + 9, d + 11}
    ensures |a| == 5
  {
  }

  /** On a loaded engine, person 1 holds six reservations from hour 1 on and
      person 2 five. */
  lemma ApiReservationCounts(s: Engine, day: Day)
    requires ApiLoaded(s, day)
    ensures |ReservedFrom(s.reserved, P1, SlotOf(day, 1))| == 6
    ensures |ReservedFrom(s.reserved, P2, SlotOf(day, 1))| == 5
  {
    ApiLoadedHolds(s, day);
    ApiReservedPerson1(s.reserved, day);
    ApiReservedPerson2(s.reserved, day);
  }

  /** The test emails are not blank. */
  lemma EmailsNotBlank()
    ensures !IsBlank(Some(P1)) && !IsBlank(Some(P2))
  {
    assert P1[0] == 't' && P2[0] == 't';
  }

  /** Constructed from the API test's data, the engine's schedules from
      hour 1 on list six meetings for person 1 and five for person 2. */
  method ApiScheduleSizes(day: Day) returns (n1: int, n2: int)
    ensures n1 == 6 && n2 == 5
  {
    var s := ApiBootstrap(day);
    EmailsNotBlank();
    ApiReservationCounts(s, day);
    var r1 := GetSchedule(s, Some(P1), Some(day), 1);
    var r2 := GetSchedule(s, Some(P2), Some(day), 1);
    n1 := |r1.value|;
    n2 := |r2.value|;
  }

  /** On a loaded engine, which hours of [1, 12) are free for person 1. */
  lemma ApiFreeHoursPerson1(s: Engine, day: Day, u: Slot)
    requires ApiLoaded(s, day)
    requires day * 24 + 1 <= u < day * 24 + 12
    ensures FreeFor(s.reserved, {P1}, u) <==> u in ApiFreeForPerson1(day)
  {
    ApiLoadedReservations(s, day, P1, u);
    assert !FreeFor(s.reserved, {P1}, u) <==> IsReserved(s.reserved, P1, u);
  }

  /** On a loaded engine, which hours of [1, 12) are free for person 2. */
  lemma ApiFreeHoursPerson2(s: Engine, day: Day, u: Slot)
    requires ApiLoaded(s, day)
    requires day * 24 + 1 <= u < day * 24 + 12
    ensures FreeFor(s.reserved, {P2}, u) <==> u in ApiFreeForPerson2(day)
  {
    ApiLoadedReservations(s, day, P2, u);
    assert !FreeFor(s.reserved, {P2}, u) <==> IsReserved(s.reserved, P2, u);
  }

  /** On a loaded engine, which hours of [1, 12) are free for both: those
      free for each. */
  lemma ApiFreeHoursBoth(s: Engine, day: Day, u: Slot)
    requires ApiLoaded(s, day)
    requires day * 24 + 1 <= u < day * 24 + 12
    ensures FreeFor(s.reserved, {P1, P2}, u) <==> u in ApiFreeForBoth(day)
  {
    ApiFreeHoursPerson1(s, day, u);
    ApiFreeHoursPerson2(s, day, u);
    FreeForUnion(s.reserved, {P1}, {P2}, u);
    assert {P1} + {P2} == {P1, P2};
  }

  /** On a loaded engine, the suggestions over hours [1, 12) for person 1. */
  lemma ApiSuggestionForPerson1(s: Engine, day: Day)
    requires ApiLoaded(s, day)
    ensures FreeSlots(s.reserved, {P1}, SlotOf(day, 1), SlotOf(day, 12)) == ApiFreeForPerson1(day)
  {
    forall u | SlotOf(day, 1) <= u < SlotOf(day, 12)
      ensures FreeFor(s.reserved, {P1}, u) <==> u in ApiFreeForPerson1(day)
    {
      ApiFreeHoursPerson1(s, day, u);
    }
    SuggestionIs(s.reserved, {P1}, SlotOf(day, 1), SlotOf(day, 12), ApiFreeForPerson1(day));
  }

  /** On a loaded engine, the suggestions over hours [1, 12) for person 2. */
  lemma ApiSuggestionForPerson2(s: Engine, day: Day)
    requires ApiLoaded(s, day)
    ensures FreeSlots(s.reserved, {P2}, SlotOf(day, 1), SlotOf(day, 12)) == ApiFreeForPerson2(day)
  {
    forall u | SlotOf(day, 1) <= u < SlotOf(day, 12)
      ensures FreeFor(s.reserved, {P2}, u) <==> u in ApiFreeForPerson2(day)
    {
      ApiFreeHoursPerson2(s, day, u);
    }
    SuggestionIs(s.reserved, {P2}, SlotOf(day, 1), SlotOf(day, 12), ApiFreeForPerson2(day));
  }

  /** On a loaded engine, the suggestions over hours [1, 12) for both. */
  lemma ApiSuggestionForBoth(s: Engine, day: Day)
    requires ApiLoaded(s, day)
    ensures FreeSlots(s.reserved, {P1, P2}, SlotOf(day, 1), SlotOf(day, 12)) == ApiFreeForBoth(day)
  {
    forall u | SlotOf(day, 1) <= u < SlotOf(day, 12)
      ensures FreeFor(s.reserved, {P1, P2}, u) <==> u in ApiFreeForBoth(day)
    {
      ApiFreeHoursBoth(s, day, u);
    }
    SuggestionIs(s.reserved, {P1, P2}, SlotOf(day, 1), SlotOf(day, 12), ApiFreeForBoth(day));
  }

  /** Constructed from the API test's data, the engine suggests hours 4, 5,
      6, 7, 10 for person 1, hours 1, 2, 3, 4, 7, 10 for person 2 and hours
      4, 7, 10 for both, over [1, 12) of that day. */
  method ApiSuggestions(day: Day) returns (a1: seq<Slot>, a2: seq<Slot>, both: seq<Slot>)
    ensures a1 == ApiFreeForPerson1(day)
    ensures a2 == ApiFreeForPerson2(day)
    ensures both == ApiFreeForBoth(day)
  {
    var s := ApiBootstrap(day);
    ApiSuggestionForPerson1(s, day);
    ApiSuggestionForPerson2(s, day);
    ApiSuggestionForBoth(s, day);
    var r1 := SuggestTimeSlots(s, {P1}, Some(day), 1, Some(day), 12);
    var r2 := SuggestTimeSlots(s, {P2}, Some(day), 1, Some(day), 12);
    var r3 := SuggestTimeSlots(s, {P1, P2}, Some(day), 1, Some(day), 12);
    a1, a2, both := r1.value, r2.value, r3.value;
  }

  /** The ten hours from 13 to 22 of the given day. */
  function LateHours(day: Day): seq<Slot>
  {
    seq(10, i => day * 24 + 13 + i)
  }

  /** One person booked at hour 12: which hours of [12, 23) are free. */
  lemma EarlierSlotFreeHours(day: Day, u: Slot)
    requires day * 24 + 12 <= u < day * 24 + 23
    ensures FreeFor(map[P1 := {day * 24 + 12}], {P1}, u) <==> u in LateHours(day)
  {
    var r := map[P1 := {day * 24 + 12}];
    assert !FreeFor(r, {P1}, u) <==> IsReserved(r, P1, u);
    if day * 24 + 13 <= u {
      assert LateHours(day)[u - day * 24 - 13] == u;
    }
  }

  /** One person booked at hour 12: the suggestions over hours [12, 23) are
      the ten hours from 13 to 22, so the end hour 23 is not among them. */
  lemma EarlierSlotSuggestion(day: Day)
    ensures FreeSlots(map[P1 := {SlotOf(day, 12)}], {P1}, SlotOf(day, 12), SlotOf(day, 23)) == LateHours(day)
  {
    forall u | SlotOf(day, 12) <= u < SlotOf(day, 23)
      ensures FreeFor(map[P1 := {SlotOf(day, 12)}], {P1}, u) <==> u in LateHours(day)
    {
      EarlierSlotFreeHours(day, u);
    }
    SuggestionIs(map[P1 := {SlotOf(day, 12)}], {P1}, SlotOf(day, 12), SlotOf(day, 23), LateHours(day));
  }

  /** Registering person 1 and booking them at hour 12 leaves exactly that
      one reservation. */
  lemma EarlierSlotBooking(day: Day)
    ensures var s := CreatePerson(Empty, "Test User 1", P1).state;
            ApplyMeeting(s, {P1}, SlotOf(day, 12)).reserved == map[P1 := {SlotOf(day, 12)}]
  {
  }

  /** Registering person 1, booking them at hour 12 through the unchecked
      createMeeting and asking for suggestions over [12, 23): the first
      suggestion is hour 13 and the last hour 22, and the list is the ten
      hours between. */
  method EarlierSlotScenario(day: Day) returns (slots: seq<Slot>)
    ensures |slots| == 10 && slots[0] == SlotOf(day, 13) && slots[|slots| - 1] == SlotOf(day, 22)
    ensures slots == LateHours(day)
  {
    var s0 := CreatePerson(Empty, "Test User 1", P1).state;
    var booked := CreateMeetingUnchecked(s0, Some({P1}), Some(day), 12);
    EarlierSlotBooking(day);
    EarlierSlotSuggestion(day);
    var r := SuggestTimeSlots(booked.state, {P1}, Some(day), 12, Some(day), 23);
    slots := r.value;
  }

  /** An ascending sequence of slots in [start, end) holding exactly the free
      ones is the suggestion for that range. */
  lemma SuggestionIs(reserved: ReservedMap, emails: set<Email>, start: Slot, end: Slot, b: seq<Slot>)
    requires forall i :: 0 <= i < |b| - 1 ==> b[i] < b[i + 1]
    requires forall i :: 0 <= i < |b| ==> start <= b[i] < end
    requires forall u :: start <= u < end ==> (FreeFor(reserved, emails, u) <==> u in b)
    ensures FreeSlots(reserved, emails, start, end) == b
  {
    IncreasingByNeighbours(b);
    SuggestionsDetermined(FreeSlots(reserved, emails, start, end), b);
  }

  /** A sequence that rises between neighbours is strictly increasing. */
  lemma {:induction false} IncreasingByNeighbours(s: seq<Slot>)
    requires forall i :: 0 <= i < |s| - 1 ==> s[i] < s[i + 1]
    ensures Increasing(s)
    decreases |s|
  {
    if |s| > 1 {
      IncreasingByNeighbours(s[1..]);
      forall i, j | 0 <= i < j < |s|
        ensures s[i] < s[j]
      {
        if i > 0 {
          assert s[1..][i - 1] == s[i] && s[1..][j - 1] == s[j];
        } else if j > 1 {
          assert s[1..][0] == s[1] && s[1..][j - 1] == s[j];
        }
      }
    }
  }

  /** Two ascending slot sequences with the same members are equal. */
  lemma {:induction false} SuggestionsDetermined(a: seq<Slot>, b: seq<Slot>)
    requires Increasing(a) && Increasing(b)
    requires forall u :: u in a <==> u in b
    ensures a == b
    decreases |a|
  {
    if |a| > 0 {
      assert a[0] in a;
    }
    if |b| > 0 {
      assert b[0] in b;
    }
    if |a| > 0 && |b| > 0 {
      assert a[0] == b[0] by {
        assert a[0] in a && b[0] in b;
      }
      forall u
        ensures u in a[1..] <==> u in b[1..]
      {
        if u in a[1..] {
          var k :| 1 <= k < |a| && a[k] == u;
          assert u in b && u != b[0];
        }
        if u in b[1..] {
          var k :| 1 <= k < |b| && b[k] == u;
          assert u in a && u != a[0];
        }
      }
      SuggestionsDetermined(a[1..], b[1..]);
      assert a == [a[0]] + a[1..] && b == [b[0]] + b[1..];
    }
  }

  /** Registering the same email twice: the second call is refused and the
      directory keeps one entry. */
  lemma DuplicatePersonRefused()
    ensures var first := CreatePerson(Empty, "Test User 1", P1);
            var second := CreatePerson(first.state, "Test User 2", P1);
            && first.outcome == Pass
            && second.outcome == Fail(NotUniquePerson(P1))
            && |GetPersonsMap(second.state)| == 1
  {
  }

  /** Both persons registered and booked together at 12: a checked meeting
      of person 2 at 12 can only be refused with a conflict on person 2. */
  lemma ConflictReported(err: Error)
    ensures var s0 := CreatePerson(CreatePerson(Empty, "Test User 1", P1).state, "Test User 2", P2).state;
            var s1 := ApplyMeeting(s0, {P1, P2}, 12);
            && !Admits(s1.persons, s1.reserved, {P2}, true, 12)
            && Admits(s1.persons, s1.reserved, {P2}, false, 12)
            && (Offends(s1.persons, s1.reserved, {P2}, true, 12, err) <==> err == TimeslotConflict(P2))
  {
    var s0 := CreatePerson(CreatePerson(Empty, "Test User 1", P1).state, "Test User 2", P2).state;
    var s1 := ApplyMeeting(s0, {P1, P2}, 12);
    assert IsReserved(s1.reserved, P2, 12);
    assert P2 in s1.persons;
  }

  /** Persons 1 and 2 registered through createPerson, nothing booked. */
  function TwoPersons(): Engine
  {
    CreatePerson(CreatePerson(Empty, "Test User 1", P1).state, "Test User 2", P2).state
  }

  /** Both persons are registered and nobody holds a slot. */
  lemma TwoPersonsRegistered()
    ensures P1 in TwoPersons().persons && P2 in TwoPersons().persons
    ensures TwoPersons().reserved == map[]
  {
  }

  /** With nothing booked, a checked meeting of both persons is admitted. */
  lemma JointBookingAdmitted(t: Slot)
    ensures Admits(TwoPersons().persons, TwoPersons().reserved, {P1, P2}, true, t)
  {
    TwoPersonsRegistered();
  }

  /** Recording the joint meeting reserves the slot for both and nothing else. */
  lemma JointBookingReserves(t: Slot)
    ensures ApplyMeeting(TwoPersons(), {P1, P2}, t).reserved == map[P1 := {t}, P2 := {t}]
  {
    TwoPersonsRegistered();
    FreshReservations(t);
  }

  /** Reserving t for both persons on an empty index. */
  lemma FreshReservations(t: Slot)
    ensures UpdateReservedTimeslots(map[], {P1, P2}, t) == map[P1 := {t}, P2 := {t}]
  {
    var r := UpdateReservedTimeslots(map[], {P1, P2}, t);
    assert r.Keys == {P1, P2};
    assert r[P1] == {t} && r[P2] == {t};
  }

  /** After the joint booking at t, a checked meeting of person 2 at t can
      only be refused, and only with a conflict on person 2. */
  lemma SecondBookingRefused(t: Slot, err: Error)
    ensures var s1 := ApplyMeeting(TwoPersons(), {P1, P2}, t);
            && !Admits(s1.persons, s1.reserved, {P2}, true, t)
            && (Offends(s1.persons, s1.reserved, {P2}, true, t, err) <==> err == TimeslotConflict(P2))
  {
    TwoPersonsRegistered();
    var s1 := ApplyMeeting(TwoPersons(), {P1, P2}, t);
    assert IsReserved(s1.reserved, P2, t);
  }

  /** Both persons registered, both booked at hour 12 through the checked
      createMeeting, then a checked meeting of person 2 alone at hour 12: the
      first call is admitted, the second fails with a conflict on person 2
      and leaves the engine as the first call left it. */
  method ConflictScenario(day: Day) returns (first: Step, second: Step)
    ensures first.outcome == Pass
    ensures first.state.reserved == map[P1 := {SlotOf(day, 12)}, P2 := {SlotOf(day, 12)}]
    ensures second == Step(first.state, Fail(TimeslotConflict(P2)))
  {
    var t := SlotOf(day, 12);
    first := JointBooking(day);
    JointBookingReserves(t);
    SecondBookingRefused(t, TimeslotConflict(P2));
    second := CreateMeeting(first.state, Some({P2}), Some(day), 12, true);
    SecondBookingRefused(t, second.outcome.error);
  }

  /** The checked createMeeting of both persons at hour 12, right after they
      are registered, is admitted and records exactly that meeting. */
  method JointBooking(day: Day) returns (first: Step)
    ensures first == Step(ApplyMeeting(TwoPersons(), {P1, P2}, SlotOf(day, 12)), Pass)
  {
    JointBookingAdmitted(SlotOf(day, 12));
    first := CreateMeeting(TwoPersons(), Some({P1, P2}), Some(day), 12, true);
  }

  /** Only person 1 registered: a meeting of persons 1 and 2 can only be
      refused because person 2 does not exist. */
  lemma MissingPersonReported(err: Error)
    ensures var s := CreatePerson(Empty, "Test User 1", P1).state;
            && !Admits(s.persons, s.reserved, {P1, P2}, false, 12)
            && (Offends(s.persons, s.reserved, {P1, P2}, false, 12, err) <==> err == PersonNotExist(P2))
  {
    var s := CreatePerson(Empty, "Test User 1", P1).state;
    assert P1 != P2;
    assert P2 !in s.persons;
  }
}
