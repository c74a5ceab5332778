# Scheduling engine model

A Dafny model of the in-memory meeting-scheduling engine of
`scheduling-service`. The engine keeps three maps:

- the **directory** `personsMap`: email → Person;
- the **reservation index** `reservedPersonTimeSlotsMap`: email → set of
  reserved slots;
- the **meeting index** `meetingsSortedByTimeSlotMap`: slot → set of Meeting,
  ordered by slot.

It offers six operations on those maps: `createPerson`, `createMeeting`
(with an optional conflict check), `getSchedule`, `suggestTimeSlots`,
`getMeetings`, and the constructor's bootstrap from initial persons and
meetings.

The model is functional. `Engine` is an immutable record of the three maps.
A void operation returns a `Step`: the engine afterwards, plus `Pass` or
`Fail(error)`. The contracts state that a failed step returns the engine
unchanged. Queries return `Result` values. Exceptions become
variants of `Error`. The person and conflict errors carry the offending
email, `DataInitializationFailure` carries its cause, and `InvalidInput`
carries nothing. A time slot
(`LocalDateTime` at a whole hour) is the integer `day * 24 + hour`. So
`plusHours(1)` is `+ 1`, and the `TreeMap` order is integer order
(`SlotOrderIsChronological`).

Files:

- `model.dfy` (module `Model`): `Person`, `Meeting`, `Error` and the
  `compareTo` of meetings. It also holds `TreeSetAdd`, which models how a
  `TreeSet<Meeting>` adds an element under that comparison. Because
  `compareTo` looks only at start times, the set absorbs a second meeting
  with the same start.
- `scheduling_utils.dfy` (module `SchedulingUtils`): slot construction,
  input and person validation, the attendee existence and conflict check,
  and the two index updates.
- `scheduling_service.dfy` (module `MinimalSchedulingService`): the engine
  and the cross-index invariant `Valid`. It holds every operation and the
  lemmas relating them.
- `scenarios.dfy` (module `SchedulingScenarios`): the repository's test
  scenarios, stated as lemmas about the model.

The central invariant is `Valid`. It says five things:

- every meeting in bucket `t` starts at `t`;
- every attendee of a meeting at `t` has `t` reserved;
- every reservation is witnessed by a meeting at that slot that has the
  person as an attendee;
- every attendee and every reservation key is registered;
- every directory entry is keyed by its own email.

`Valid` holds of the empty engine. `CreatePerson` and `CreateMeeting`
preserve it. `Bootstrap` establishes it.

Four behaviours of the code are easy to misread; the model follows the
code in each:

- `createMeeting` accepts an empty attendee set. Only a missing (null) set
  is rejected. The empty set records a meeting with no attendees.
- `getSchedule` returns at most one meeting per start slot. The result is a
  `TreeSet` ordered by `compareTo`, which compares start times only. When
  several of the person's meetings share a start, the one added first is
  kept. Which one that is depends on `HashSet` iteration order, so the model
  leaves the choice unspecified.
- `suggestTimeSlots` gathers reservations over the closed range
  `[start, end]` and proposes slots over the half-open range `[start, end)`.
  `EndReservationIsInert` shows that the extra end point never changes the
  result.
- The check before `createMeeting` reports some offending attendee. Which
  one depends on set iteration order. `CheckPersonsAndMeetingConflicts`
  picks attendees in an unspecified order and promises only that the
  reported email really offends.

## Model

| member | source | states |
|---|---|---|
| `Model.CompareTo` | src/main/java/com/wtomaszewski/schedulingservice/model/Meeting.java:9-11 | The sign of the comparison follows the start times alone; attendees play no part. |
| `Model.MeetingEquality` | src/main/java/com/wtomaszewski/schedulingservice/model/Meeting.java:6 | Two meetings are equal exactly when both their attendee sets and their start times are equal. |
| `Model.CompareToIsTotalPreorder` | src/main/java/com/wtomaszewski/schedulingservice/model/Meeting.java:9-11 | compareTo is reflexive, antisymmetric in sign, transitive and total. |
| `Model.CompareToInconsistentWithEquals` | src/main/java/com/wtomaszewski/schedulingservice/model/Meeting.java:9-11 | Two different meetings at the same start compare as 0, so compareTo is not consistent with equals. |
| `Model.SortedByCompareToIsByStart` | src/main/java/com/wtomaszewski/schedulingservice/model/Meeting.java:9-11 | A sequence sorted by compareTo is exactly one that is non-decreasing in start time. |
| `Model.AscendingIsByCompareTo` | src/main/java/com/wtomaszewski/schedulingservice/model/Meeting.java:9-11 | The TreeSet order (strictly ascending start) is the strict order that compareTo induces. |
| `Model.TreeSetAdd` | src/main/java/com/wtomaszewski/schedulingservice/service/MinimalSchedulingService.java:72-79 | Adding to the ordered set keeps it strictly ascending; the new meeting enters iff no element has its start, and nothing else changes. |
| `Model.TreeSetAddTies` | src/main/java/com/wtomaszewski/schedulingservice/service/MinimalSchedulingService.java:79 | After an add, the set holds a meeting at the added meeting's start, and every start it already covered stays covered. |
| `Model.TrimLeadingStops` | src/main/java/com/wtomaszewski/schedulingservice/service/MinimalSchedulingService.java:70 | The front loop of String.trim empties a string exactly when every character is at most U+0020, and otherwise stops at a character above it. |
| `Model.TrimTrailingKeepsFront` | src/main/java/com/wtomaszewski/schedulingservice/service/MinimalSchedulingService.java:70 | The back loop of String.trim never removes a first character above U+0020. |
| `Model.BlankIsTrimmedEmpty` | src/main/java/com/wtomaszewski/schedulingservice/service/MinimalSchedulingService.java:70 | isBlank on a non-null string, modelled as "every character is at most U+0020", is exactly trim().isEmpty(). |
| `SchedulingUtils.SlotOf` | src/main/java/com/wtomaszewski/schedulingservice/util/SchedulingUtils.java:42-44 | The date and hour can be read back from the slot (toLocalDate and getHour invert getLocalDateTime). |
| `SchedulingUtils.SlotOfInjective` | src/main/java/com/wtomaszewski/schedulingservice/util/SchedulingUtils.java:42-44 | For hours in 0..23, equal slots come exactly from equal dates and equal hours. |
| `SchedulingUtils.SlotRoundTrip` | src/main/java/com/wtomaszewski/schedulingservice/service/MinimalSchedulingService.java:134 | Rebuilding a slot from its date and hour, as bootstrap does, gives the same slot. |
| `SchedulingUtils.SlotOrderIsChronological` | src/main/java/com/wtomaszewski/schedulingservice/util/SchedulingUtils.java:42-44 | Slot order is date order, then hour order: the order of the meeting index. |
| `SchedulingUtils.NextSlot` | src/main/java/com/wtomaszewski/schedulingservice/service/MinimalSchedulingService.java:109 | One hour later is the next hour of the day, or hour 0 of the next day after hour 23. |
| `SchedulingUtils.DayOf` | src/main/java/com/wtomaszewski/schedulingservice/service/MinimalSchedulingService.java:134 | toLocalDate gives the day whose 24 hours contain the slot. |
| `SchedulingUtils.HourOf` | src/main/java/com/wtomaszewski/schedulingservice/service/MinimalSchedulingService.java:134 | The hour of any slot lies in 0..23. |
| `SchedulingUtils.ValidateInput` | src/main/java/com/wtomaszewski/schedulingservice/util/SchedulingUtils.java:46-50 | Fails, with the invalid-input error, iff the condition holds. |
| `SchedulingUtils.ValidatePerson` | src/main/java/com/wtomaszewski/schedulingservice/util/SchedulingUtils.java:52-56 | Fails with NotUniquePerson(email) iff the email is already a key of the directory. |
| `SchedulingUtils.ReservedOf` | src/main/java/com/wtomaszewski/schedulingservice/service/MinimalSchedulingService.java:96 | A person's reserved slots, where an unknown email counts as having none. |
| `SchedulingUtils.CheckPersonsAndMeetingConflicts` | src/main/java/com/wtomaszewski/schedulingservice/util/SchedulingUtils.java:18-29 | Passes iff every attendee is registered and, when conflicts are checked, none has the slot reserved. A failure names an unregistered attendee (PersonNotExist) or a registered, already-booked one (TimeslotConflict). |
| `SchedulingUtils.CheckedAdmitsImpliesUnchecked` | src/main/java/com/wtomaszewski/schedulingservice/util/SchedulingUtils.java:20-27 | With the conflict check off only existence matters; turning it on can only reject more. |
| `SchedulingUtils.BookedAttendeeBlocks` | src/main/java/com/wtomaszewski/schedulingservice/util/SchedulingUtils.java:24-27 | An attendee who already has the slot reserved blocks a checked creation at that slot. |
| `SchedulingUtils.UpdateReservedTimeslots` | src/main/java/com/wtomaszewski/schedulingservice/util/SchedulingUtils.java:35-40 | Afterwards, (e, u) is reserved iff it was before or e is an attendee and u is the slot; attendees without an entry get one. |
| `SchedulingUtils.UpdateReservedFrame` | src/main/java/com/wtomaszewski/schedulingservice/util/SchedulingUtils.java:35-40 | Entries of non-attendees are left exactly as they were. |
| `SchedulingUtils.UpdateReservedIdempotent` | src/main/java/com/wtomaszewski/schedulingservice/util/SchedulingUtils.java:35-40 | Reserving the same slot for the same attendees twice equals doing it once. |
| `SchedulingUtils.UpdateMeetingMap` | src/main/java/com/wtomaszewski/schedulingservice/util/SchedulingUtils.java:31-33 | The bucket at the slot gains Meeting(emails, slot), and is created if absent. No other meeting appears or disappears. |
| `SchedulingUtils.UpdateMeetingMapFrame` | src/main/java/com/wtomaszewski/schedulingservice/util/SchedulingUtils.java:31-33 | Buckets at other slots are unchanged. |
| `SchedulingUtils.UpdateMeetingMapIdempotent` | src/main/java/com/wtomaszewski/schedulingservice/util/SchedulingUtils.java:31-33 | Re-inserting an equal meeting leaves the index unchanged (set semantics). |
| `MinimalSchedulingService.ValidIndicesInLockStep` | src/main/java/com/wtomaszewski/schedulingservice/service/MinimalSchedulingService.java:62-65 | Under the invariant, a person has a slot reserved iff some indexed meeting starting there has them as an attendee. |
| `MinimalSchedulingService.EmptyIsValid` | src/main/java/com/wtomaszewski/schedulingservice/service/MinimalSchedulingService.java:37-39 | The freshly constructed, empty engine satisfies the invariant. |
| `MinimalSchedulingService.GetPersonsMap` | src/main/java/com/wtomaszewski/schedulingservice/service/MinimalSchedulingService.java:121-124 | Under the invariant, every directory entry is keyed by its own email, and everyone holding a reservation is listed. |
| `MinimalSchedulingService.CreatePerson` | src/main/java/com/wtomaszewski/schedulingservice/service/MinimalSchedulingService.java:48-52 | A taken email fails with NotUniquePerson and changes nothing. Otherwise exactly one key is added, mapped to Person(name, email), the directory grows by one, and both indices and the invariant are kept. |
| `MinimalSchedulingService.ApplyMeeting` | src/main/java/com/wtomaszewski/schedulingservice/service/MinimalSchedulingService.java:64-65 | The two updates of a successful creation together: each attendee gains the slot, and every other (person, slot) pair keeps its reservation status, so non-attendees who already held the slot still do. Exactly Meeting(emails, slot) is added at the slot. The directory is untouched. |
| `MinimalSchedulingService.ApplyMeetingPreservesValid` | src/main/java/com/wtomaszewski/schedulingservice/service/MinimalSchedulingService.java:62-65 | Recording a meeting whose attendees are all registered keeps the two indices in lock-step. |
| `MinimalSchedulingService.ApplyMeetingIdempotent` | src/main/java/com/wtomaszewski/schedulingservice/service/MinimalSchedulingService.java:64-65 | Recording the same meeting twice gives the same engine as recording it once. |
| `MinimalSchedulingService.CreateMeeting` | src/main/java/com/wtomaszewski/schedulingservice/service/MinimalSchedulingService.java:59-66 | A null set or date, or an hour outside 0..23, fails with InvalidInput before anything else. Otherwise the call succeeds iff the attendee check admits the meeting, and then applies exactly ApplyMeeting. A failure names a genuinely offending attendee and changes nothing. The invariant is preserved. |
| `MinimalSchedulingService.CreateMeetingUnchecked` | src/main/java/com/wtomaszewski/schedulingservice/service/MinimalSchedulingService.java:54-57 | A null set or date, or an hour outside 0..23, fails with InvalidInput and changes nothing. Otherwise the three-argument overload succeeds iff the input is valid and every attendee is registered. It never reports a conflict, and its only data failure is PersonNotExist for an unregistered attendee. |
| `MinimalSchedulingService.CreatedMeetingIsIndexed` | src/main/java/com/wtomaszewski/schedulingservice/service/MinimalSchedulingService.java:64-65 | After a successful creation, getMeetings at the slot holds the meeting and every attendee has the slot reserved. |
| `MinimalSchedulingService.GetMeetings` | src/main/java/com/wtomaszewski/schedulingservice/service/MinimalSchedulingService.java:115-119 | The meetings in the bucket at that slot, or none if there is no bucket. When buckets are keyed by start, all of them start at that slot. |
| `MinimalSchedulingService.GetSchedule` | src/main/java/com/wtomaszewski/schedulingservice/service/MinimalSchedulingService.java:68-85 | A blank email, null date or bad hour gives InvalidInput. Otherwise the result is strictly ascending by start (one meeting per start). Each element is a meeting of the person from a bucket at or after the query slot. Every such meeting has a result element at its start. Under the invariant, the result's starts are exactly the person's reserved slots from the query slot on, and its size is their number. |
| `MinimalSchedulingService.ScheduleFollowsReservations` | src/main/java/com/wtomaszewski/schedulingservice/service/MinimalSchedulingService.java:74-82 | Under the invariant, a schedule built from the tail buckets covers exactly the person's reserved slots at or after the query slot. |
| `Model.AscendingCount` | src/main/java/com/wtomaszewski/schedulingservice/service/MinimalSchedulingService.java:72-84 | A TreeSet ordered by start holds one meeting per start slot: its size is the number of distinct start slots. |
| `MinimalSchedulingService.FreeSlots` | src/main/java/com/wtomaszewski/schedulingservice/service/MinimalSchedulingService.java:88-113 | Reference for suggestions: the strictly ascending slots u with start <= u < end at which no listed person has a reservation. |
| `MinimalSchedulingService.FreeForUnion` | src/main/java/com/wtomaszewski/schedulingservice/service/MinimalSchedulingService.java:94-102 | A slot is free for a union of groups iff it is free for each group, so joint suggestions are the common free slots. |
| `MinimalSchedulingService.WalkIncreasing` | src/main/java/com/wtomaszewski/schedulingservice/service/MinimalSchedulingService.java:104-110 | The stepping loop visits its slots in strictly ascending order, every one below the point reached. |
| `MinimalSchedulingService.WalkMembers` | src/main/java/com/wtomaszewski/schedulingservice/service/MinimalSchedulingService.java:104-110 | The stepping loop, run from start to t, keeps exactly the slots of [start, t) that are not in the gathered set. |
| `MinimalSchedulingService.WalkAgrees` | src/main/java/com/wtomaszewski/schedulingservice/service/MinimalSchedulingService.java:104-110 | The walk depends on the gathered set only inside [start, t). |
| `MinimalSchedulingService.WalkMatchesFreeSlots` | src/main/java/com/wtomaszewski/schedulingservice/service/MinimalSchedulingService.java:94-110 | A walk that skips exactly the reserved slots of the range equals the reference suggestion. |
| `MinimalSchedulingService.EndReservationIsInert` | src/main/java/com/wtomaszewski/schedulingservice/service/MinimalSchedulingService.java:98 | Gathering over the closed range [start, end] gives the same suggestion as gathering over [start, end - 1]. |
| `MinimalSchedulingService.GatherReserved` | src/main/java/com/wtomaszewski/schedulingservice/service/MinimalSchedulingService.java:94-102 | The gathered set is exactly the slots in [lo, hi], both ends included, that some listed person has reserved. |
| `MinimalSchedulingService.GatheredMembership` | src/main/java/com/wtomaszewski/schedulingservice/service/MinimalSchedulingService.java:98-99 | A slot is gathered iff it lies in [lo, hi] and some listed person has it reserved. |
| `MinimalSchedulingService.WalkSlots` | src/main/java/com/wtomaszewski/schedulingservice/service/MinimalSchedulingService.java:104-110 | The while loop yields a strictly ascending sequence holding exactly the slots of [start, end) that are not gathered. |
| `MinimalSchedulingService.SuggestTimeSlots` | src/main/java/com/wtomaszewski/schedulingservice/service/MinimalSchedulingService.java:87-113 | An empty email set, a null date or a bad hour gives InvalidInput. Otherwise the result equals the reference: ascending, and holding exactly the slots u with start <= u < end free for every listed person. Unknown emails count as free. |
| `MinimalSchedulingService.SuggestionBounds` | src/main/java/com/wtomaszewski/schedulingservice/service/MinimalSchedulingService.java:104 | The end slot is never suggested, and an empty or inverted range suggests nothing. |
| `MinimalSchedulingService.RegisterRepeated` | src/main/java/com/wtomaszewski/schedulingservice/service/MinimalSchedulingService.java:126-130 | During bootstrap, registering person i fails only when an earlier person has the same email. |
| `MinimalSchedulingService.RegisterFresh` | src/main/java/com/wtomaszewski/schedulingservice/service/MinimalSchedulingService.java:126-130 | During bootstrap, registering a fresh person extends the directory by exactly that person. |
| `MinimalSchedulingService.InitializePersons` | src/main/java/com/wtomaszewski/schedulingservice/service/MinimalSchedulingService.java:126-130 | Succeeds iff the emails are distinct, and then registers exactly the given persons under their emails. Otherwise fails with NotUniquePerson naming an email that two of the persons share. |
| `MinimalSchedulingService.InitializeMeetings` | src/main/java/com/wtomaszewski/schedulingservice/service/MinimalSchedulingService.java:132-136 | Succeeds iff every meeting's attendees are registered. Then the index holds exactly the old meetings plus the given ones, the directory is unchanged and the invariant is kept. Otherwise fails with PersonNotExist naming an attendee of one of the meetings who is not registered. |
| `MinimalSchedulingService.Bootstrap` | src/main/java/com/wtomaszewski/schedulingservice/service/MinimalSchedulingService.java:36-46 | Yields an engine iff the persons' emails are distinct and all attendees are among them. The engine holds exactly those persons and meetings and satisfies the invariant. Any failure is DataInitializationFailure. Because persons are loaded first, a repeated email always gives the cause NotUniquePerson naming that email, whatever the meetings; with distinct emails the cause is PersonNotExist naming an attendee who is not among the persons. |
| `SchedulingScenarios.ApiBootstrap` | src/test/java/com/wtomaszewski/schedulingservice/api/MinimalSchedulingAPITest.java:40-55 | Constructing the engine from the API test's two persons and nine meetings succeeds; the result keeps the invariant, indexes exactly those meetings and registers exactly those two persons. |
| `SchedulingScenarios.ApiDataAccepted` | src/test/java/com/wtomaszewski/schedulingservice/api/MinimalSchedulingAPITest.java:40-50 | The test's persons have distinct emails and every attendee of its meetings is one of them, so construction does not throw. |
| `SchedulingScenarios.ApiLoadedReservations` | src/test/java/com/wtomaszewski/schedulingservice/api/MinimalSchedulingAPITest.java:40-50 | On the engine holding the nine meetings, person 1 has exactly hours 1, 2, 3, 8, 9, 11 reserved and person 2 exactly hours 5, 6, 8, 9, 11; nobody else has anything. |
| `SchedulingScenarios.ApiLoadedHolds` | src/test/java/com/wtomaszewski/schedulingservice/api/MinimalSchedulingAPITest.java:40-50 | The same agreement, for every (email, slot) pair at once. |
| `SchedulingScenarios.ApiReservedPerson1` | src/test/java/com/wtomaszewski/schedulingservice/api/MinimalSchedulingAPITest.java:58-63 | Given those reservations, person 1's slots from hour 1 on are hours 1, 2, 3, 8, 9, 11, six of them. |
| `SchedulingScenarios.ApiReservedPerson2` | src/test/java/com/wtomaszewski/schedulingservice/api/MinimalSchedulingAPITest.java:65-70 | Given those reservations, person 2's slots from hour 1 on are hours 5, 6, 8, 9, 11, five of them. |
| `SchedulingScenarios.ApiReservationCounts` | src/test/java/com/wtomaszewski/schedulingservice/api/MinimalSchedulingAPITest.java:40-50 | On the engine holding the nine meetings, person 1 holds six reservations from hour 1 on and person 2 holds five. |
| `SchedulingScenarios.ApiScheduleSizes` | src/test/java/com/wtomaszewski/schedulingservice/api/MinimalSchedulingAPITest.java:58-70 | On the engine the constructor builds from the test data, getSchedule from hour 1 lists six meetings for person 1 and five for person 2, although two meetings share hour 9. |
| `SchedulingScenarios.ApiFreeHoursPerson1` | src/test/java/com/wtomaszewski/schedulingservice/api/MinimalSchedulingAPITest.java:40-50 | On the engine holding the nine meetings, hours 4, 5, 6, 7 and 10 are the free hours of [1, 12) for person 1. |
| `SchedulingScenarios.ApiFreeHoursPerson2` | src/test/java/com/wtomaszewski/schedulingservice/api/MinimalSchedulingAPITest.java:40-50 | On that engine, hours 1, 2, 3, 4, 7 and 10 are the free hours of [1, 12) for person 2. |
| `SchedulingScenarios.ApiFreeHoursBoth` | src/test/java/com/wtomaszewski/schedulingservice/api/MinimalSchedulingAPITest.java:40-50 | On that engine, hours 4, 7 and 10 are the hours of [1, 12) free for both persons. |
| `SchedulingScenarios.ApiSuggestionForPerson1` | src/test/java/com/wtomaszewski/schedulingservice/api/MinimalSchedulingAPITest.java:72-83 | On that engine, person 1's suggestions over [1, 12) are hours 4, 5, 6, 7, 10. |
| `SchedulingScenarios.ApiSuggestionForPerson2` | src/test/java/com/wtomaszewski/schedulingservice/api/MinimalSchedulingAPITest.java:85-97 | On that engine, person 2's suggestions over [1, 12) are hours 1, 2, 3, 4, 7, 10. |
| `SchedulingScenarios.ApiSuggestionForBoth` | src/test/java/com/wtomaszewski/schedulingservice/api/MinimalSchedulingAPITest.java:99-107 | On that engine, the joint suggestions over [1, 12) are hours 4, 7, 10. |
| `SchedulingScenarios.ApiSuggestions` | src/test/java/com/wtomaszewski/schedulingservice/api/MinimalSchedulingAPITest.java:72-107 | Constructing the engine from the test data and calling suggestTimeSlots over [1, 12) returns hours 4, 5, 6, 7, 10 for person 1, hours 1, 2, 3, 4, 7, 10 for person 2 and hours 4, 7, 10 for both. |
| `SchedulingScenarios.EarlierSlotFreeHours` | src/test/java/com/wtomaszewski/schedulingservice/service/MinimalSchedulingServiceTest.java:183-197 | With one person booked at 12, hours 13 to 22 are the free hours of [12, 23). |
| `SchedulingScenarios.EarlierSlotSuggestion` | src/test/java/com/wtomaszewski/schedulingservice/service/MinimalSchedulingServiceTest.java:183-197 | Booked at 12, the suggestions over [12, 23) are exactly the ten hours 13 to 22, in order; the end hour 23 is excluded. |
| `SchedulingScenarios.EarlierSlotBooking` | src/test/java/com/wtomaszewski/schedulingservice/service/MinimalSchedulingServiceTest.java:190-191 | Registering person 1 and recording their meeting at 12 leaves exactly one reservation: person 1 at 12. |
| `SchedulingScenarios.EarlierSlotScenario` | src/test/java/com/wtomaszewski/schedulingservice/service/MinimalSchedulingServiceTest.java:184-197 | Through createPerson, the unchecked createMeeting and suggestTimeSlots over [12, 23): the first suggestion is 13, the last is 22, and the list is the ten hours 13 to 22. |
| `SchedulingScenarios.DuplicatePersonRefused` | src/test/java/com/wtomaszewski/schedulingservice/service/MinimalSchedulingServiceTest.java:70-78 | A second registration of the same email fails with NotUniquePerson and the directory keeps one entry. |
| `SchedulingScenarios.ConflictReported` | src/test/java/com/wtomaszewski/schedulingservice/service/MinimalSchedulingServiceTest.java:116-134 | With both persons booked at 12, a checked meeting of person 2 at 12 can fail only with TimeslotConflict(person 2). Unchecked, it is admitted. |
| `SchedulingScenarios.TwoPersonsRegistered` | src/test/java/com/wtomaszewski/schedulingservice/service/MinimalSchedulingServiceTest.java:125-126 | After the two createPerson calls both persons are registered and nobody holds a slot. |
| `SchedulingScenarios.JointBookingAdmitted` | src/test/java/com/wtomaszewski/schedulingservice/service/MinimalSchedulingServiceTest.java:127 | The checked meeting of both persons at hour 12 passes the attendee check. |
| `SchedulingScenarios.JointBookingReserves` | src/test/java/com/wtomaszewski/schedulingservice/service/MinimalSchedulingServiceTest.java:127 | Recording it reserves hour 12 for both persons and nothing else. |
| `SchedulingScenarios.SecondBookingRefused` | src/test/java/com/wtomaszewski/schedulingservice/service/MinimalSchedulingServiceTest.java:129-131 | After that booking, a checked meeting of person 2 at hour 12 is not admitted, and the only error it can report is TimeslotConflict(person 2). |
| `SchedulingScenarios.JointBooking` | src/test/java/com/wtomaszewski/schedulingservice/service/MinimalSchedulingServiceTest.java:125-127 | Through two createPerson calls and the checked createMeeting, the first booking is admitted and records exactly that meeting. |
| `SchedulingScenarios.ConflictScenario` | src/test/java/com/wtomaszewski/schedulingservice/service/MinimalSchedulingServiceTest.java:116-134 | Following the test's calls, the first checked booking passes, and the second fails with TimeslotConflict(person 2) and leaves the engine as the first call left it. |
| `SchedulingScenarios.MissingPersonReported` | src/test/java/com/wtomaszewski/schedulingservice/service/MinimalSchedulingServiceTest.java:136-151 | With only person 1 registered, a meeting of persons 1 and 2 can fail only with PersonNotExist(person 2). |
| `SchedulingScenarios.SuggestionsDetermined` | src/main/java/com/wtomaszewski/schedulingservice/service/MinimalSchedulingService.java:90 | A suggestion is an ordered set: two strictly ascending slot sequences with the same members are equal. |

## Left out

- Thread safety. The model is sequential, and concurrent suggestion calls
  are not modelled.
- The API layer, the service interface and the in-memory repositories. They
  only delegate. The constructor takes the initial persons and meetings as
  two sequences instead of repositories. Each sequence stands for the
  iteration order of a `Set`. The model also accepts a sequence that repeats
  an element, which no `Set` produces; a repeated person is then refused
  with `NotUniquePerson`, like two persons that share an email.
- Exception messages and their formatting. Each exception is an `Error`
  variant; only the offending email, or the bootstrap error's cause, is
  kept.
- Calendar arithmetic. A date is an abstract day number and a slot is
  `day * 24 + hour`. A meeting whose start has minutes cannot be expressed,
  so the minutes that `getHour()` drops during bootstrap are not modelled.
- `MinimalSchedulingService.GetMeetings`: requires `0 <= hour < 24`. The
  code does no validation here, and an out-of-range hour makes
  `LocalTime.of` throw `DateTimeException`. A null date is not modelled
  either.
- Null pointers beyond the explicit null checks. `suggestTimeSlots` on a
  null email set, and meetings with a null attendee set or start, are not
  modelled. The email set there is an ordinary set.
- Aliasing. A Meeting stores the caller's mutable attendee set,
  `getPersonsMap` returns the live directory, and `getMeetings` returns the
  live bucket of the meeting index, not a copy. A caller that changes that
  bucket changes the meeting index without touching the reservation index,
  which breaks the lock-step that `Valid` describes. In the model all three
  are immutable values, so `Valid` is kept by every modelled operation
  but is not protected against such outside changes.
- Which attendee's error is reported when several offend. This depends on
  `HashSet` iteration order, so the model leaves it unspecified.
- Which meeting `getSchedule` keeps when several of the person's meetings
  share a start. This also depends on iteration order and is left
  unspecified.
- `MinimalSchedulingService.GetSchedule`: visits the tail buckets in any
  order, not only ascending. The result's order and contents do not depend
  on this, because the `TreeSet` sorts. Only the unspecified choice among
  same-start meetings could.
- The magnitude of the value `compareTo` returns. Only its sign is
  modelled.
