/**
 * The helpers behind the engine: slot construction, input and person
 * validation, the attendee existence/conflict check, and the two index
 * updates that a successful meeting creation applies.
 */
module SchedulingUtils {
  import opened Model

  /** Reservation index: email -> slots at which that person has a meeting. */
  type ReservedMap = map<Email, set<Slot>>

  /** Meeting index: slot -> meetings starting at that slot. */
  type MeetingMap = map<Slot, set<Meeting>>

  /** getLocalDateTime(date, hour): the slot at that hour of that day. */
  function SlotOf(date: Day, hour: int): (t: Slot)
    requires 0 <= hour < 24
    ensures DayOf(t) == date && HourOf(t) == hour
  {
    date * 24 + hour
  }

  /** LocalDateTime.toLocalDate on a slot: the day whose 24 hours hold it. */
  function DayOf(t: Slot): (d: Day)
    ensures d * 24 <= t < d * 24 + 24
  {
    t / 24
  }

  /** LocalDateTime.getHour on a slot. */
  function HourOf(t: Slot): (h: int)
    ensures 0 <= h < 24
  {
    t % 24
  }

  /** Equal slots come from equal dates and hours. */
  lemma SlotOfInjective(d1: Day, h1: int, d2: Day, h2: int)
    requires 0 <= h1 < 24 && 0 <= h2 < 24
    ensures SlotOf(d1, h1) == SlotOf(d2, h2) <==> d1 == d2 && h1 == h2
  {
  }

  /** Every slot is rebuilt from its own date and hour. */
  lemma SlotRoundTrip(t: Slot)
    ensures SlotOf(DayOf(t), HourOf(t)) == t
  {
  }

  /** Slots are ordered chronologically: by date, then by hour. */
  lemma SlotOrderIsChronological(d1: Day, h1: int, d2: Day, h2: int)
    requires 0 <= h1 < 24 && 0 <= h2 < 24
    ensures SlotOf(d1, h1) < SlotOf(d2, h2) <==> d1 < d2 || (d1 == d2 && h1 < h2)
  {
  }

  /** plusHours(1) moves to the next hour, rolling over to the next day. */
  lemma NextSlot(d: Day, h: int)
    requires 0 <= h < 24
    ensures SlotOf(d, h) + 1 == if h < 23 then SlotOf(d, h + 1) else SlotOf(d + 1, 0)
  {
  }

  /** validateInput(condition, message). */
  function ValidateInput(condition: bool): (o: Outcome)
    ensures o.Fail? <==> condition
    ensures o.Fail? ==> o.error == InvalidInput
  {
    if condition then Fail(InvalidInput) else Pass
  }

  /** validatePerson(persons, email): the email must not be registered yet. */
  function ValidatePerson(persons: map<Email, Person>, email: Email): (o: Outcome)
    ensures o.Fail? <==> email in persons
    ensures o.Fail? ==> o.error == NotUniquePerson(email)
  {
    if email in persons then Fail(NotUniquePerson(email)) else Pass
  }

  /** The person's slot set holds t; an unknown email holds nothing. */
  predicate IsReserved(reserved: ReservedMap, e: Email, t: Slot)
  {
    e in reserved && t in reserved[e]
  }

  /** The slots reserved for e, empty when e has no entry. */
  function ReservedOf(reserved: ReservedMap, e: Email): (r: set<Slot>)
    ensures forall t :: t in r <==> IsReserved(reserved, e, t)
  {
    if e in reserved then reserved[e] else {}
  }

  /** Meeting m sits in the bucket at key t. */
  predicate InBucket(meetings: MeetingMap, t: Slot, m: Meeting)
  {
    t in meetings && m in meetings[t]
  }

  /** The attendee check passes: every attendee is registered and, when
      conflicts are checked, none already has slot t reserved. */
  predicate Admits(persons: map<Email, Person>, reserved: ReservedMap, emails: set<Email>,
                   checkConflicts: bool, t: Slot)
  {
    forall e :: e in emails ==> e in persons && !(checkConflicts && IsReserved(reserved, e, t))
  }

  /** err names an attendee that makes the check fail: an unregistered one,
      or a registered one already booked at t while conflicts are checked. */
  predicate Offends(persons: map<Email, Person>, reserved: ReservedMap, emails: set<Email>,
                    checkConflicts: bool, t: Slot, err: Error)
  {
    match err
    case PersonNotExist(e) => e in emails && e !in persons
    case TimeslotConflict(e) => e in emails && e in persons && checkConflicts && IsReserved(reserved, e, t)
    case _ => false
  }

  /** checkPersonsAndMeetingConflicts: walks the attendees in an unspecified
      order and stops at the first offending one. */
  method CheckPersonsAndMeetingConflicts(persons: map<Email, Person>, reserved: ReservedMap,
                                         emails: set<Email>, checkConflicts: bool, t: Slot)
    returns (o: Outcome)
    ensures o.Pass? <==> Admits(persons, reserved, emails, checkConflicts, t)
    ensures o.Fail? ==> Offends(persons, reserved, emails, checkConflicts, t, o.error)
  {
    var rest := emails;
    while rest != {}
      invariant rest <= emails
      invariant forall e :: e in emails - rest ==> e in persons && !(checkConflicts && IsReserved(reserved, e, t))
      decreases rest
    {
      var e :| e in rest;
      if e !in persons {
        return Fail(PersonNotExist(e));
      }
      if e in reserved && checkConflicts && t in reserved[e] {
        return Fail(TimeslotConflict(e));
      }
      rest := rest - {e};
    }
    return Pass;
  }

  /** Turning the conflict check on can only reject more. */
  lemma CheckedAdmitsImpliesUnchecked(persons: map<Email, Person>, reserved: ReservedMap,
                                      emails: set<Email>, t: Slot)
    ensures Admits(persons, reserved, emails, true, t) ==> Admits(persons, reserved, emails, false, t)
    ensures Admits(persons, reserved, emails, false, t) <==> emails <= persons.Keys
  {
  }

  /** An attendee already booked at t blocks a checked creation at t. */
  lemma BookedAttendeeBlocks(persons: map<Email, Person>, reserved: ReservedMap,
                             emails: set<Email>, e: Email, t: Slot)
    requires e in emails && IsReserved(reserved, e, t)
    ensures !Admits(persons, reserved, emails, true, t)
  {
  }

  /** updateReservedTimeslots: adds t to each attendee's slot set, creating
      the set when absent. */
  function UpdateReservedTimeslots(reserved: ReservedMap, emails: set<Email>, t: Slot): (r: ReservedMap)
    ensures r.Keys == reserved.Keys + emails
    ensures forall e, u :: IsReserved(r, e, u) <==> IsReserved(reserved, e, u) || (e in emails && u == t)
  {
    map e | e in reserved.Keys + emails :: if e in emails then ReservedOf(reserved, e) + {t} else reserved[e]
  }

  /** Entries of emails outside the attendee set are left as they were. */
  lemma UpdateReservedFrame(reserved: ReservedMap, emails: set<Email>, t: Slot, e: Email)
    requires e !in emails
    ensures e in UpdateReservedTimeslots(reserved, emails, t) <==> e in reserved
    ensures e in reserved ==> UpdateReservedTimeslots(reserved, emails, t)[e] == reserved[e]
  {
  }

  /** Reserving the same slot for the same attendees twice is reserving it once. */
  lemma UpdateReservedIdempotent(reserved: ReservedMap, emails: set<Email>, t: Slot)
    ensures var once := UpdateReservedTimeslots(reserved, emails, t);
            UpdateReservedTimeslots(once, emails, t) == once
  {
    var once := UpdateReservedTimeslots(reserved, emails, t);
    var twice := UpdateReservedTimeslots(once, emails, t);
    forall e | e in twice
      ensures twice[e] == once[e]
    {
      assert forall u :: u in twice[e] <==> IsReserved(twice, e, u);
      assert forall u :: u in once[e] <==> IsReserved(once, e, u);
    }
  }

  /** updateMeetingMap: puts Meeting(emails, t) into the bucket at t,
      creating the bucket when absent. */
  function UpdateMeetingMap(meetings: MeetingMap, emails: set<Email>, t: Slot): (r: MeetingMap)
    ensures r.Keys == meetings.Keys + {t}
    ensures forall k, m :: InBucket(r, k, m) <==> InBucket(meetings, k, m) || (k == t && m == Meeting(emails, t))
  {
    var bucket := if t in meetings then meetings[t] else {};
    meetings[t := bucket + {Meeting(emails, t)}]
  }

  /** Buckets at other slots are left as they were. */
  lemma UpdateMeetingMapFrame(meetings: MeetingMap, emails: set<Email>, t: Slot, k: Slot)
    requires k != t && k in meetings
    ensures UpdateMeetingMap(meetings, emails, t)[k] == meetings[k]
  {
  }

  /** Re-inserting an equal meeting leaves the index unchanged. */
  lemma UpdateMeetingMapIdempotent(meetings: MeetingMap, emails: set<Email>, t: Slot)
    ensures var once := UpdateMeetingMap(meetings, emails, t);
            UpdateMeetingMap(once, emails, t) == once
  {
    var once := UpdateMeetingMap(meetings, emails, t);
    var twice := UpdateMeetingMap(once, emails, t);
    assert twice[t] == once[t] by {
      assert forall m :: m in twice[t] <==> InBucket(twice, t, m);
      assert forall m :: m in once[t] <==> InBucket(once, t, m);
    }
  }
}
