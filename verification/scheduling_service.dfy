/**
 * The in-memory scheduling engine: a directory of persons, a per-person
 * reservation index and a slot-ordered meeting index, with the operations
 * that create persons and meetings, bootstrap from initial data, and answer
 * schedule, suggestion and exact-slot queries.
 */
module MinimalSchedulingService {
  import opened Model
  import opened SchedulingUtils

  /** personsMap, reservedPersonTimeSlotsMap and meetingsSortedByTimeSlotMap. */
  datatype Engine = Engine(persons: map<Email, Person>, reserved: ReservedMap, meetings: MeetingMap)

  /** The engine after a void call, and whether the call threw. */
  datatype Step = Step(state: Engine, outcome: Outcome)

  const Empty: Engine := Engine(map[], map[], map[])

  /** Every directory entry is keyed by its own email. */
  ghost predicate DirectoryKeyed(s: Engine)
  {
    forall e :: e in s.persons ==> s.persons[e].email == e
  }

  /** Every meeting sits in the bucket of its own start slot. */
  ghost predicate BucketsKeyed(s: Engine)
  {
    forall t, m :: InBucket(s.meetings, t, m) ==> m.startTime == t
  }

  /** Each attendee of a meeting at t has t reserved. */
  ghost predicate MeetingsReserved(s: Engine)
  {
    forall t, m, e :: InBucket(s.meetings, t, m) && e in m.persons ==> IsReserved(s.reserved, e, t)
  }

  /** Each reservation is witnessed by a meeting at that slot with that attendee. */
  ghost predicate ReservationsWitnessed(s: Engine)
  {
    forall e, t :: IsReserved(s.reserved, e, t) ==> exists m :: InBucket(s.meetings, t, m) && e in m.persons
  }

  /** Attendees and reservation keys are registered persons. */
  ghost predicate EmailsRegistered(s: Engine)
  {
    && s.reserved.Keys <= s.persons.Keys
    && forall t, m, e :: InBucket(s.meetings, t, m) && e in m.persons ==> e in s.persons
  }

  /** The cross-index invariant the engine keeps. */
  ghost predicate Valid(s: Engine)
  {
    && DirectoryKeyed(s)
    && BucketsKeyed(s)
    && MeetingsReserved(s)
    && ReservationsWitnessed(s)
    && EmailsRegistered(s)
  }

  /** With the invariant, the reservation index is exactly the projection of
      the meeting index onto (attendee, start slot) pairs. */
  lemma ValidIndicesInLockStep(s: Engine, e: Email, t: Slot)
    requires Valid(s)
    ensures IsReserved(s.reserved, e, t) <==> exists m: Meeting :: InBucket(s.meetings, m.startTime, m) && m.startTime == t && e in m.persons
  {
    if IsReserved(s.reserved, e, t) {
      var m :| InBucket(s.meetings, t, m) && e in m.persons;
      assert m.startTime == t;
    }
  }

  /** The engine before any data is loaded satisfies the invariant. */
  lemma EmptyIsValid()
    ensures Valid(Empty)
  {
  }

  /** getPersonsMap: the directory. Under the invariant each entry is keyed
      by its own email, and everyone holding a reservation is listed. */
  function GetPersonsMap(s: Engine): (r: map<Email, Person>)
    ensures Valid(s) ==> forall e :: e in r ==> r[e].email == e
    ensures Valid(s) ==> forall e, t :: IsReserved(s.reserved, e, t) ==> e in r
  {
    s.persons
  }

  /** createPerson: registers (name, email) unless the email is taken. */
  function CreatePerson(s: Engine, name: string, email: Email): (r: Step)
    ensures email in s.persons ==> r == Step(s, Fail(NotUniquePerson(email)))
    ensures email !in s.persons ==>
      && r.outcome == Pass
      && r.state.persons.Keys == s.persons.Keys + {email}
      && |r.state.persons| == |s.persons| + 1
      && r.state.persons[email] == Person(name, email)
      && (forall e :: e in s.persons ==> r.state.persons[e] == s.persons[e])
      && r.state.reserved == s.reserved
      && r.state.meetings == s.meetings
    ensures Valid(s) ==> Valid(r.state)
  {
    match ValidatePerson(s.persons, email)
    case Fail(err) => Step(s, Fail(err))
    case Pass => Step(s.(persons := s.persons[email := Person(name, email)]), Pass)
  }

  /** The two index updates of a successful createMeeting, applied together. */
  function ApplyMeeting(s: Engine, emails: set<Email>, t: Slot): (r: Engine)
    ensures r.persons == s.persons
    ensures forall e, u :: IsReserved(r.reserved, e, u) <==> IsReserved(s.reserved, e, u) || (e in emails && u == t)
    ensures forall k, m :: InBucket(r.meetings, k, m) <==> InBucket(s.meetings, k, m) || (k == t && m == Meeting(emails, t))
  {
    Engine(s.persons, UpdateReservedTimeslots(s.reserved, emails, t), UpdateMeetingMap(s.meetings, emails, t))
  }

  /** Recording a meeting of registered attendees keeps the indices in lock-step. */
  lemma ApplyMeetingPreservesValid(s: Engine, emails: set<Email>, t: Slot)
    requires Valid(s)
    requires emails <= s.persons.Keys
    ensures Valid(ApplyMeeting(s, emails, t))
  {
    var r := ApplyMeeting(s, emails, t);
    assert r.reserved.Keys == s.reserved.Keys + emails;
    forall e, u | IsReserved(r.reserved, e, u)
      ensures exists m :: InBucket(r.meetings, u, m) && e in m.persons
    {
      if e in emails && u == t {
        assert InBucket(r.meetings, t, Meeting(emails, t));
      } else {
        var m :| InBucket(s.meetings, u, m) && e in m.persons;
        assert InBucket(r.meetings, u, m);
      }
    }
  }

  /** Applying the same meeting twice is applying it once. */
  lemma ApplyMeetingIdempotent(s: Engine, emails: set<Email>, t: Slot)
    ensures ApplyMeeting(ApplyMeeting(s, emails, t), emails, t) == ApplyMeeting(s, emails, t)
  {
    UpdateReservedIdempotent(s.reserved, emails, t);
    UpdateMeetingMapIdempotent(s.meetings, emails, t);
  }

  /** The argument check of createMeeting. */
  predicate MeetingInputInvalid(emails: Option<set<Email>>, date: Option<Day>, hour: int)
  {
    emails.None? || date.None? || hour < 0 || hour > 23
  }

  /** createMeeting(emails, date, hour, checkConflicts). */
  method CreateMeeting(s: Engine, emails: Option<set<Email>>, date: Option<Day>, hour: int, checkConflicts: bool)
    returns (r: Step)
    ensures MeetingInputInvalid(emails, date, hour) ==> r == Step(s, Fail(InvalidInput))
    ensures !MeetingInputInvalid(emails, date, hour) ==>
      var t := SlotOf(date.value, hour);
      && (r.outcome.Pass? <==> Admits(s.persons, s.reserved, emails.value, checkConflicts, t))
      && (r.outcome.Pass? ==> r.state == ApplyMeeting(s, emails.value, t))
      && (r.outcome.Fail? ==> Offends(s.persons, s.reserved, emails.value, checkConflicts, t, r.outcome.error))
    ensures r.outcome.Fail? ==> r.state == s
    ensures Valid(s) ==> Valid(r.state)
  {
    var v := ValidateInput(MeetingInputInvalid(emails, date, hour));
    if v.Fail? {
      return Step(s, v);
    }
    var t := SlotOf(date.value, hour);
    var check := CheckPersonsAndMeetingConflicts(s.persons, s.reserved, emails.value, checkConflicts, t);
    if check.Fail? {
      return Step(s, check);
    }
    if Valid(s) {
      ApplyMeetingPreservesValid(s, emails.value, t);
    }
    r := Step(ApplyMeeting(s, emails.value, t), Pass);
  }

  /** createMeeting(emails, date, hour): the overload without conflict checking. */
  method CreateMeetingUnchecked(s: Engine, emails: Option<set<Email>>, date: Option<Day>, hour: int)
    returns (r: Step)
    ensures MeetingInputInvalid(emails, date, hour) ==> r == Step(s, Fail(InvalidInput))
    ensures r.outcome.Pass? <==> !MeetingInputInvalid(emails, date, hour) && emails.value <= s.persons.Keys
    ensures r.outcome.Fail? ==> r.state == s && !r.outcome.error.TimeslotConflict?
    ensures !MeetingInputInvalid(emails, date, hour) && r.outcome.Fail? ==>
      r.outcome.error.PersonNotExist? && r.outcome.error.email in emails.value && r.outcome.error.email !in s.persons
    ensures r.outcome.Pass? ==> r.state == ApplyMeeting(s, emails.value, SlotOf(date.value, hour))
    ensures Valid(s) ==> Valid(r.state)
  {
    r := CreateMeeting(s, emails, date, hour, false);
    if !MeetingInputInvalid(emails, date, hour) {
      CheckedAdmitsImpliesUnchecked(s.persons, s.reserved, emails.value, SlotOf(date.value, hour));
    }
  }

  /** A successful creation is visible in both indices at its slot. */
  lemma CreatedMeetingIsIndexed(s: Engine, emails: set<Email>, date: Day, hour: int)
    requires 0 <= hour < 24
    ensures var t := SlotOf(date, hour);
            var r := ApplyMeeting(s, emails, t);
            && Meeting(emails, t) in GetMeetings(r, date, hour)
            && forall e :: e in emails ==> IsReserved(r.reserved, e, t)
  {
  }

  /** getMeetings(date, hour): the bucket at that slot, empty when absent. */
  function GetMeetings(s: Engine, date: Day, hour: int): (r: set<Meeting>)
    requires 0 <= hour < 24
    ensures forall m :: m in r <==> InBucket(s.meetings, SlotOf(date, hour), m)
    ensures BucketsKeyed(s) ==> forall m :: m in r ==> m.startTime == SlotOf(date, hour)
  {
    var t := SlotOf(date, hour);
    if t in s.meetings then s.meetings[t] else {}
  }

  /** The argument check of getSchedule. */
  predicate ScheduleInputInvalid(email: Option<Email>, date: Option<Day>, hour: int)
  {
    IsBlank(email) || date.None? || hour < 0 || hour > 23
  }

  /** The slots from q on that e has reserved. */
  function ReservedFrom(reserved: ReservedMap, e: Email, q: Slot): set<Slot>
  {
    set t | t in ReservedOf(reserved, e) && q <= t
  }

  /** m lies in a bucket at or after q and has e among its attendees. */
  ghost predicate Listed(meetings: MeetingMap, e: Email, q: Slot, m: Meeting)
  {
    exists k :: InBucket(meetings, k, m) && q <= k && e in m.persons
  }

  /** getSchedule(email, date, hour): scans the buckets from the query slot
      on and adds each meeting of the person to a TreeSet ordered by start. */
  method GetSchedule(s: Engine, email: Option<Email>, date: Option<Day>, hour: int)
    returns (r: Result<seq<Meeting>>)
    ensures ScheduleInputInvalid(email, date, hour) ==> r == Err(InvalidInput)
    ensures !ScheduleInputInvalid(email, date, hour) ==>
      var q := SlotOf(date.value, hour);
      && r.Ok?
      && Ascending(r.value)
      && (forall m :: m in r.value ==> Listed(s.meetings, email.value, q, m))
      && (forall k, m :: InBucket(s.meetings, k, m) && q <= k && email.value in m.persons ==> HasTie(r.value, m))
      && (Valid(s) ==> StartsOf(r.value) == ReservedFrom(s.reserved, email.value, q)
                       && |r.value| == |ReservedFrom(s.reserved, email.value, q)|)
  {
    var v := ValidateInput(ScheduleInputInvalid(email, date, hour));
    if v.Fail? {
      return Err(v.error);
    }
    var q := SlotOf(date.value, hour);
    var e := email.value;
    var keys := set k | k in s.meetings && q <= k;
    var out: seq<Meeting> := [];
    while keys != {}
      invariant Ascending(out)
      invariant forall m :: m in out ==> Listed(s.meetings, e, q, m)
      invariant forall k, m :: InBucket(s.meetings, k, m) && q <= k && k !in keys && e in m.persons ==> HasTie(out, m)
      decreases keys
    {
      var k :| k in keys;
      var bucket := s.meetings[k];
      while bucket != {}
        invariant bucket <= s.meetings[k]
        invariant Ascending(out)
        invariant forall m :: m in out ==> Listed(s.meetings, e, q, m)
        invariant forall k', m :: InBucket(s.meetings, k', m) && q <= k' && k' !in keys && e in m.persons ==> HasTie(out, m)
        invariant forall m :: m in s.meetings[k] - bucket && e in m.persons ==> HasTie(out, m)
        decreases bucket
      {
        var m :| m in bucket;
        if e in m.persons {
          TreeSetAddTies(out, m);
          assert InBucket(s.meetings, k, m);
          out := TreeSetAdd(out, m);
        }
        bucket := bucket - {m};
      }
      keys := keys - {k};
    }
    if Valid(s) {
      ScheduleFollowsReservations(s, e, q, out);
      AscendingCount(out);
    }
    return Ok(out);
  }

  /** Under the invariant, a schedule's start slots are exactly the person's
      reserved slots from q on. */
  lemma ScheduleFollowsReservations(s: Engine, e: Email, q: Slot, out: seq<Meeting>)
    requires Valid(s)
    requires forall m :: m in out ==> Listed(s.meetings, e, q, m)
    requires forall k, m :: InBucket(s.meetings, k, m) && q <= k && e in m.persons ==> HasTie(out, m)
    ensures StartsOf(out) == ReservedFrom(s.reserved, e, q)
  {
    forall t | t in ReservedFrom(s.reserved, e, q)
      ensures t in StartsOf(out)
    {
      var m :| InBucket(s.meetings, t, m) && e in m.persons;
      assert HasTie(out, m);
      var y :| y in out && y.startTime == m.startTime;
      assert m.startTime == t;
    }
    forall t | t in StartsOf(out)
      ensures t in ReservedFrom(s.reserved, e, q)
    {
      var m :| m in out && m.startTime == t;
      var k :| InBucket(s.meetings, k, m) && q <= k && e in m.persons;
      assert m.startTime == k;
    }
  }

  /** No listed attendee has slot u reserved; unknown emails reserve nothing. */
  predicate FreeFor(reserved: ReservedMap, emails: set<Email>, u: Slot)
  {
    forall e :: e in emails ==> !IsReserved(reserved, e, u)
  }

  /** A slot is free for a union of groups iff it is free for each group. */
  lemma FreeForUnion(reserved: ReservedMap, a: set<Email>, b: set<Email>, u: Slot)
    ensures FreeFor(reserved, a + b, u) <==> FreeFor(reserved, a, u) && FreeFor(reserved, b, u)
  {
  }

  /** Strictly ascending slots. */
  predicate Increasing(s: seq<Slot>)
  {
    forall i, j :: 0 <= i < j < |s| ==> s[i] < s[j]
  }

  /** Reference for suggestions: the hourly slots of [start, end), ascending,
      at which every listed person is free. */
  function FreeSlots(reserved: ReservedMap, emails: set<Email>, start: Slot, end: Slot): (r: seq<Slot>)
    ensures Increasing(r)
    ensures forall u :: u in r <==> start <= u < end && FreeFor(reserved, emails, u)
    decreases end - start
  {
    if end <= start then []
    else
      var before := FreeSlots(reserved, emails, start, end - 1);
      if FreeFor(reserved, emails, end - 1) then
        assert |before| > 0 ==> before[|before| - 1] in before;
        AppendIncreasing(before, end - 1);
        before + [end - 1]
      else before
  }

  /** The slot walk of suggestTimeSlots, run from start up to t: the slots
      of [start, t) not in the gathered set, in the order they are visited. */
  function Walk(gathered: set<Slot>, start: Slot, t: Slot): seq<Slot>
    decreases t - start
  {
    if t <= start then []
    else Walk(gathered, start, t - 1) + (if t - 1 in gathered then [] else [t - 1])
  }

  /** A slot above every element of an ascending sequence can go at the back. */
  lemma AppendIncreasing(s: seq<Slot>, t: Slot)
    requires Increasing(s)
    requires |s| > 0 ==> s[|s| - 1] < t
    ensures Increasing(s + [t])
  {
    var r := s + [t];
    forall i, j | 0 <= i < j < |r|
      ensures r[i] < r[j]
    {
      assert r[i] == s[i];
      if j < |s| {
        assert r[j] == s[j];
      } else if i < |s| - 1 {
        assert s[i] < s[|s| - 1];
      }
    }
  }

  /** The walk visits its slots in ascending order, all below t. */
  lemma {:induction false} WalkIncreasing(gathered: set<Slot>, start: Slot, t: Slot)
    ensures Increasing(Walk(gathered, start, t))
    ensures var w := Walk(gathered, start, t); |w| > 0 ==> w[|w| - 1] < t
    decreases t - start
  {
    if start < t {
      WalkIncreasing(gathered, start, t - 1);
      if t - 1 !in gathered {
        AppendIncreasing(Walk(gathered, start, t - 1), t - 1);
      }
    }
  }

  /** The walk keeps exactly the slots of [start, t) that were not gathered. */
  lemma {:induction false} WalkMembers(gathered: set<Slot>, start: Slot, t: Slot)
    ensures forall u :: u in Walk(gathered, start, t) <==> start <= u < t && u !in gathered
    decreases t - start
  {
    if start < t {
      WalkMembers(gathered, start, t - 1);
    }
  }

  /** Slots in [lo, hi] reserved by some listed person. */
  ghost function Gathered(reserved: ReservedMap, emails: set<Email>, lo: Slot, hi: Slot): set<Slot>
  {
    set e, u | e in emails && e in reserved && u in reserved[e] && lo <= u <= hi :: u
  }

  /** The walk depends on the gathered set only inside [start, t). */
  lemma {:induction false} WalkAgrees(g1: set<Slot>, g2: set<Slot>, start: Slot, t: Slot)
    requires forall u :: start <= u < t ==> (u in g1 <==> u in g2)
    ensures Walk(g1, start, t) == Walk(g2, start, t)
    decreases t - start
  {
    if start < t {
      WalkAgrees(g1, g2, start, t - 1);
    }
  }

  /** A walk that skips exactly the reserved slots yields the reference. */
  lemma {:induction false} WalkMatchesFreeSlots(gathered: set<Slot>, reserved: ReservedMap, emails: set<Email>,
                                                start: Slot, end: Slot)
    requires forall u :: start <= u < end ==> (u in gathered <==> !FreeFor(reserved, emails, u))
    ensures Walk(gathered, start, end) == FreeSlots(reserved, emails, start, end)
    decreases end - start
  {
    if start < end {
      WalkMatchesFreeSlots(gathered, reserved, emails, start, end - 1);
    }
  }

  /** The reservation at exactly end, gathered by the inclusive range check,
      never removes a candidate: gathering over [start, end) gives the same walk. */
  lemma EndReservationIsInert(reserved: ReservedMap, emails: set<Email>, start: Slot, end: Slot)
    ensures Walk(Gathered(reserved, emails, start, end), start, end)
         == Walk(Gathered(reserved, emails, start, end - 1), start, end)
  {
    var g1 := Gathered(reserved, emails, start, end);
    var g2 := Gathered(reserved, emails, start, end - 1);
    forall u | start <= u < end
      ensures u in g1 <==> u in g2
    {
      if u in g1 {
        var e :| e in emails && e in reserved && u in reserved[e] && start <= u <= end;
        assert u in g2;
      }
    }
    WalkAgrees(g1, g2, start, end);
  }

  /** The argument check of suggestTimeSlots. */
  predicate SuggestInputInvalid(emails: set<Email>, startDate: Option<Day>, startHour: int,
                                endDate: Option<Day>, endHour: int)
  {
    || emails == {} || startDate.None? || endDate.None?
    || startHour < 0 || startHour > 23 || endHour < 0 || endHour > 23
  }

  /** The gathering loop of suggestTimeSlots: the slots in [lo, hi] that
      some listed person has reserved (bounds inclusive on both ends). */
  method GatherReserved(reserved: ReservedMap, emails: set<Email>, lo: Slot, hi: Slot)
    returns (gathered: set<Slot>)
    ensures forall u :: u in gathered <==> lo <= u <= hi && !FreeFor(reserved, emails, u)
    ensures gathered == Gathered(reserved, emails, lo, hi)
  {
    gathered := {};
    var rest := emails;
    while rest != {}
      invariant rest <= emails
      invariant forall u :: u in gathered <==>
        lo <= u <= hi && exists e :: e in emails - rest && IsReserved(reserved, e, u)
      decreases rest
    {
      var e :| e in rest;
      var own := ReservedOf(reserved, e);
      gathered := gathered + set u | u in own && lo <= u <= hi;
      rest := rest - {e};
    }
    GatheredMembership(reserved, emails, lo, hi);
  }

  /** Membership in the gathered set, pointwise. */
  lemma GatheredMembership(reserved: ReservedMap, emails: set<Email>, lo: Slot, hi: Slot)
    ensures forall u :: u in Gathered(reserved, emails, lo, hi) <==> lo <= u <= hi && !FreeFor(reserved, emails, u)
  {
    forall u | lo <= u <= hi && !FreeFor(reserved, emails, u)
      ensures u in Gathered(reserved, emails, lo, hi)
    {
      var e :| e in emails && IsReserved(reserved, e, u);
    }
  }

  /** The stepping loop of suggestTimeSlots: from start, one hour at a time,
      while before end, keeping the slots not gathered. */
  method WalkSlots(gathered: set<Slot>, start: Slot, end: Slot) returns (available: seq<Slot>)
    ensures available == Walk(gathered, start, end)
    ensures Increasing(available)
    ensures forall u :: u in available <==> start <= u < end && u !in gathered
  {
    available := [];
    var t := start;
    while t < end
      invariant start <= t
      invariant t <= end || t == start
      invariant available == Walk(gathered, start, t)
      decreases end - t
    {
      if t !in gathered {
        available := available + [t];
      }
      t := t + 1;
    }
    WalkIncreasing(gathered, start, end);
    WalkMembers(gathered, start, end);
  }

  /** suggestTimeSlots: gathers the listed persons' reservations in
      [start, end], then walks [start, end) keeping the slots not gathered. */
  method SuggestTimeSlots(s: Engine, emails: set<Email>, startDate: Option<Day>, startHour: int,
                          endDate: Option<Day>, endHour: int)
    returns (r: Result<seq<Slot>>)
    ensures SuggestInputInvalid(emails, startDate, startHour, endDate, endHour) ==> r == Err(InvalidInput)
    ensures !SuggestInputInvalid(emails, startDate, startHour, endDate, endHour) ==>
      var start := SlotOf(startDate.value, startHour);
      var end := SlotOf(endDate.value, endHour);
      && r == Ok(FreeSlots(s.reserved, emails, start, end))
      && Increasing(r.value)
      && (forall u :: u in r.value <==> start <= u < end && FreeFor(s.reserved, emails, u))
  {
    var v := ValidateInput(SuggestInputInvalid(emails, startDate, startHour, endDate, endHour));
    if v.Fail? {
      return Err(v.error);
    }
    var start := SlotOf(startDate.value, startHour);
    var end := SlotOf(endDate.value, endHour);
    var gathered := GatherReserved(s.reserved, emails, start, end);
    var available := WalkSlots(gathered, start, end);
    WalkMatchesFreeSlots(gathered, s.reserved, emails, start, end);
    return Ok(available);
  }

  /** Suggestions never include the end slot and are empty for an empty range. */
  lemma SuggestionBounds(reserved: ReservedMap, emails: set<Email>, start: Slot, end: Slot)
    ensures end !in FreeSlots(reserved, emails, start, end)
    ensures end <= start ==> FreeSlots(reserved, emails, start, end) == []
  {
  }

  /** Persons' emails are pairwise distinct. */
  predicate DistinctEmails(ps: seq<Person>)
  {
    forall i, j :: 0 <= i < j < |ps| ==> ps[i].email != ps[j].email
  }

  /** The emails of a person sequence. */
  function EmailsOf(ps: seq<Person>): (r: set<Email>)
    ensures forall e :: e in r <==> exists i :: 0 <= i < |ps| && ps[i].email == e
  {
    set i | 0 <= i < |ps| :: ps[i].email
  }

  /** Every meeting's attendees are among the given emails. */
  predicate AttendeesKnown(ms: seq<Meeting>, known: set<Email>)
  {
    forall i :: 0 <= i < |ms| ==> ms[i].persons <= known
  }

  /** The emails of the first i persons. */
  function EmailsUpTo(ps: seq<Person>, i: int): (r: set<Email>)
    requires 0 <= i <= |ps|
    ensures forall e :: e in r <==> exists j :: 0 <= j < i && ps[j].email == e
  {
    set j | 0 <= j < i :: ps[j].email
  }

  /** The emails of the first i + 1 persons add person i's email. */
  lemma EmailsUpToStep(ps: seq<Person>, i: int)
    requires 0 <= i < |ps|
    ensures EmailsUpTo(ps, i + 1) == EmailsUpTo(ps, i) + {ps[i].email}
  {
    forall e | e in EmailsUpTo(ps, i + 1) && e != ps[i].email
      ensures e in EmailsUpTo(ps, i)
    {
      var j :| 0 <= j < i + 1 && ps[j].email == e;
      assert j < i;
    }
  }

  /** cur holds exactly the first i persons, registered under their emails,
      and those have distinct emails. */
  ghost predicate RegisteredPrefix(cur: Engine, persons: seq<Person>, i: int)
    requires 0 <= i <= |persons|
  {
    && (forall a, b :: 0 <= a < b < i ==> persons[a].email != persons[b].email)
    && cur.persons.Keys == EmailsUpTo(persons, i)
    && (forall j :: 0 <= j < i ==> cur.persons[persons[j].email] == persons[j])
    && cur.reserved == map[] && cur.meetings == map[]
  }

  /** Registering person i after the first i fails only on a repeated email. */
  lemma RegisterRepeated(cur: Engine, persons: seq<Person>, i: int)
    requires 0 <= i < |persons|
    requires RegisteredPrefix(cur, persons, i)
    requires persons[i].email in cur.persons
    ensures exists j :: 0 <= j < i && persons[j].email == persons[i].email
    ensures !DistinctEmails(persons)
  {
    var j :| 0 <= j < i && persons[j].email == persons[i].email;
  }

  /** A person whose email is new keeps the prefix's emails distinct. */
  lemma PrefixStaysDistinct(persons: seq<Person>, i: int)
    requires 0 <= i < |persons|
    requires forall a, b :: 0 <= a < b < i ==> persons[a].email != persons[b].email
    requires persons[i].email !in EmailsUpTo(persons, i)
    ensures forall a, b :: 0 <= a < b < i + 1 ==> persons[a].email != persons[b].email
  {
    forall a | 0 <= a < i
      ensures persons[a].email != persons[i].email
    {
      assert persons[a].email in EmailsUpTo(persons, i);
    }
  }

  /** Registering a fresh person i extends the registered prefix by one. */
  lemma RegisterFresh(cur: Engine, persons: seq<Person>, i: int)
    requires 0 <= i < |persons|
    requires RegisteredPrefix(cur, persons, i)
    requires persons[i].email !in cur.persons
    ensures RegisteredPrefix(cur.(persons := cur.persons[persons[i].email := persons[i]]), persons, i + 1)
  {
    var p := persons[i];
    var next := cur.(persons := cur.persons[p.email := p]);
    PrefixStaysDistinct(persons, i);
    EmailsUpToStep(persons, i);
    forall j | 0 <= j < i + 1
      ensures next.persons[persons[j].email] == persons[j]
    {
      if j < i {
        assert persons[j].email != p.email;
      }
    }
  }

  /** initializePersons: registers each person in turn. */
  method InitializePersons(s: Engine, persons: seq<Person>) returns (r: Result<Engine>)
    requires s == Empty
    ensures r.Ok? <==> DistinctEmails(persons)
    ensures r.Err? ==> r.error.NotUniquePerson?
    ensures r.Err? ==> exists i, j :: 0 <= i < j < |persons| && persons[i].email == persons[j].email == r.error.email
    ensures r.Ok? ==> && Valid(r.value)
                      && r.value.persons.Keys == EmailsOf(persons)
                      && (forall i :: 0 <= i < |persons| ==> r.value.persons[persons[i].email] == persons[i])
                      && r.value.reserved == map[] && r.value.meetings == map[]
  {
    var cur := s;
    var i := 0;
    while i < |persons|
      invariant 0 <= i <= |persons|
      invariant RegisteredPrefix(cur, persons, i)
    {
      var p := persons[i];
      var step := CreatePerson(cur, p.name, p.email);
      if step.outcome.Fail? {
        RegisterRepeated(cur, persons, i);
        var j :| 0 <= j < i && persons[j].email == p.email;
        assert step.outcome.error == NotUniquePerson(persons[i].email);
        return Err(step.outcome.error);
      }
      RegisterFresh(cur, persons, i);
      assert step.state == cur.(persons := cur.persons[p.email := p]);
      cur := step.state;
      i := i + 1;
    }
    assert EmailsUpTo(persons, i) == EmailsOf(persons);
    assert DirectoryKeyed(cur) by {
      forall e | e in cur.persons
        ensures cur.persons[e].email == e
      {
        var j :| 0 <= j < i && persons[j].email == e;
      }
    }
    return Ok(cur);
  }

  /** initializeMeetings: creates each meeting in turn, without conflict
      checking, at the date and hour of its start. */
  method InitializeMeetings(s: Engine, meetings: seq<Meeting>) returns (r: Result<Engine>)
    ensures r.Ok? <==> AttendeesKnown(meetings, s.persons.Keys)
    ensures r.Err? ==> r.error.PersonNotExist?
    ensures r.Err? ==> exists i :: 0 <= i < |meetings| && r.error.email in meetings[i].persons && r.error.email !in s.persons
    ensures r.Ok? ==> && r.value.persons == s.persons
                      && (Valid(s) ==> Valid(r.value))
                      && forall m: Meeting :: InBucket(r.value.meetings, m.startTime, m)
                           <==> InBucket(s.meetings, m.startTime, m) || m in meetings
  {
    var cur := s;
    var n := 0;
    while n < |meetings|
      invariant 0 <= n <= |meetings|
      invariant cur.persons == s.persons
      invariant Valid(s) ==> Valid(cur)
      invariant AttendeesKnown(meetings[..n], s.persons.Keys)
      invariant forall m: Meeting :: InBucket(cur.meetings, m.startTime, m)
                  <==> InBucket(s.meetings, m.startTime, m) || m in meetings[..n]
    {
      var m := meetings[n];
      SlotRoundTrip(m.startTime);
      var step := CreateMeetingUnchecked(cur, Some(m.persons), Some(DayOf(m.startTime)), HourOf(m.startTime));
      if step.outcome.Fail? {
        assert step.outcome.error.email in meetings[n].persons;
        return Err(step.outcome.error);
      }
      assert meetings[..n + 1] == meetings[..n] + [m];
      cur := step.state;
      n := n + 1;
    }
    assert meetings[..n] == meetings;
    return Ok(cur);
  }

  /** The constructor: registers all persons, then all meetings without
      conflict checking; any failure aborts construction. */
  method Bootstrap(persons: seq<Person>, meetings: seq<Meeting>) returns (r: Result<Engine>)
    ensures r.Ok? <==> DistinctEmails(persons) && AttendeesKnown(meetings, EmailsOf(persons))
    ensures r.Err? ==> r.error.DataInitializationFailure?
                       && (r.error.cause.NotUniquePerson? || r.error.cause.PersonNotExist?)
    ensures r.Err? && !DistinctEmails(persons) ==>
      && r.error.DataInitializationFailure? && r.error.cause.NotUniquePerson?
      && exists i, j :: 0 <= i < j < |persons| && persons[i].email == persons[j].email == r.error.cause.email
    ensures r.Err? && DistinctEmails(persons) ==>
      && r.error.DataInitializationFailure? && r.error.cause.PersonNotExist?
      && exists i :: 0 <= i < |meetings| && r.error.cause.email in meetings[i].persons
                                         && r.error.cause.email !in EmailsOf(persons)
    ensures r.Ok? ==> Valid(r.value)
    ensures r.Ok? ==> r.value.persons.Keys == EmailsOf(persons)
                      && forall i :: 0 <= i < |persons| ==> r.value.persons[persons[i].email] == persons[i]
    ensures r.Ok? ==> forall m: Meeting :: InBucket(r.value.meetings, m.startTime, m) <==> m in meetings
  {
    var withPersons := InitializePersons(Empty, persons);
    if withPersons.Err? {
      return Err(DataInitializationFailure(withPersons.error));
    }
    var loaded := InitializeMeetings(withPersons.value, meetings);
    if loaded.Err? {
      return Err(DataInitializationFailure(loaded.error));
    }
    return loaded;
  }
}
