/**
 * Value types of the scheduling engine: persons, meetings, hour slots, the
 * error taxonomy, and the ordering of meetings (Meeting.compareTo) together
 * with the TreeSet insertion that this ordering drives.
 */
module Model {

  /** A person's identity key. */
  type Email = string

  /** A calendar date (LocalDate), abstracted to a day number. */
  type Day = int

  /** An hour-aligned LocalDateTime, written as day * 24 + hour.
      Adding one hour (plusHours(1)) is adding 1. */
  type Slot = int

  datatype Option<+T> = None | Some(value: T)

  datatype Person = Person(name: string, email: Email)

  /** The record Meeting(persons, startTime): equality is structural. */
  datatype Meeting = Meeting(persons: set<Email>, startTime: Slot)

  /** The exceptions the engine raises. The person and conflict errors carry
      the offending email, the initialization failure carries its cause, and
      the invalid-input error carries nothing. */
  datatype Error =
    | InvalidInput
    | NotUniquePerson(email: Email)
    | PersonNotExist(email: Email)
    | TimeslotConflict(email: Email)
    | DataInitializationFailure(cause: Error)

  /** Normal completion of a void operation, or the exception it threw. */
  datatype Outcome = Pass | Fail(error: Error)

  datatype Result<+T> = Ok(value: T) | Err(error: Error)

  /** Meeting.compareTo: compares start times only; only the sign of the
      result is meaningful. */
  function CompareTo(a: Meeting, b: Meeting): (c: int)
    ensures c < 0 <==> a.startTime < b.startTime
    ensures c == 0 <==> a.startTime == b.startTime
    ensures c > 0 <==> b.startTime < a.startTime
  {
    if a.startTime < b.startTime then -1
    else if a.startTime == b.startTime then 0
    else 1
  }

  /** Two meetings are equal exactly when attendees and start agree. */
  lemma MeetingEquality(a: Meeting, b: Meeting)
    ensures a == b <==> a.persons == b.persons && a.startTime == b.startTime
  {
  }

  /** compareTo is a total preorder: reflexive, sign-antisymmetric,
      transitive and total. */
  lemma CompareToIsTotalPreorder(a: Meeting, b: Meeting, c: Meeting)
    ensures CompareTo(a, a) == 0
    ensures CompareTo(a, b) < 0 <==> CompareTo(b, a) > 0
    ensures CompareTo(a, b) == 0 <==> CompareTo(b, a) == 0
    ensures CompareTo(a, b) <= 0 && CompareTo(b, c) <= 0 ==> CompareTo(a, c) <= 0
    ensures CompareTo(a, b) <= 0 || CompareTo(b, a) <= 0
  {
  }

  /** compareTo is not consistent with equals: distinct meetings at the same
      start compare as 0. */
  lemma CompareToInconsistentWithEquals()
    ensures var a := Meeting({"a@x"}, 7);
            var b := Meeting({"b@x"}, 7);
            a != b && CompareTo(a, b) == 0
  {
  }

  /** A sequence sorted by compareTo is non-decreasing in start time. */
  lemma SortedByCompareToIsByStart(s: seq<Meeting>)
    ensures (forall i, j :: 0 <= i < j < |s| ==> CompareTo(s[i], s[j]) <= 0)
        <==> (forall i, j :: 0 <= i < j < |s| ==> s[i].startTime <= s[j].startTime)
  {
  }

  /** The order a TreeSet<Meeting> keeps: strictly ascending under compareTo,
      so no two elements share a start slot. */
  predicate Ascending(s: seq<Meeting>)
  {
    forall i, j :: 0 <= i < j < |s| ==> s[i].startTime < s[j].startTime
  }

  /** Ascending is exactly "each earlier element compares below each later one". */
  lemma AscendingIsByCompareTo(s: seq<Meeting>)
    ensures Ascending(s) <==> forall i, j :: 0 <= i < j < |s| ==> CompareTo(s[i], s[j]) < 0
  {
  }

  /** The start slots of a sequence of meetings. */
  function StartsOf(s: seq<Meeting>): set<Slot>
  {
    set m | m in s :: m.startTime
  }

  /** In an ascending sequence every start slot occurs once, so its length
      is the number of distinct start slots. */
  lemma {:induction false} AscendingCount(s: seq<Meeting>)
    requires Ascending(s)
    ensures |StartsOf(s)| == |s|
  {
    if |s| > 0 {
      AscendingHead(s);
      AscendingCount(s[1..]);
      assert StartsOf(s) == {s[0].startTime} + StartsOf(s[1..]);
      assert s[0].startTime !in StartsOf(s[1..]);
    }
  }

  /** The set already holds an element that compareTo deems equal to m. */
  predicate HasTie(s: seq<Meeting>, m: Meeting)
  {
    exists y :: y in s && y.startTime == m.startTime
  }

  /** TreeSet.add: m is inserted in order unless an element with the same
      start slot is present, in which case the set is unchanged. */
  function TreeSetAdd(s: seq<Meeting>, m: Meeting): (r: seq<Meeting>)
    requires Ascending(s)
    ensures Ascending(r)
    ensures forall x :: x in r <==> x in s || (x == m && !HasTie(s, m))
    decreases |s|
  {
    if |s| == 0 then [m]
    else if CompareTo(m, s[0]) < 0 then
      AscendingHead(s);
      [m] + s
    else if CompareTo(m, s[0]) == 0 then
      assert s[0] in s;
      s
    else
      AscendingHead(s);
      [s[0]] + TreeSetAdd(s[1..], m)
  }

  /** The head of an ascending sequence is below everything after it. */
  lemma AscendingHead(s: seq<Meeting>)
    requires Ascending(s) && |s| > 0
    ensures Ascending(s[1..])
    ensures forall x :: x in s[1..] ==> s[0].startTime < x.startTime
    ensures forall x :: x in s <==> x == s[0] || x in s[1..]
  {
    assert s == [s[0]] + s[1..];
    forall x | x in s[1..]
      ensures s[0].startTime < x.startTime
    {
      var k :| 0 <= k < |s[1..]| && s[1..][k] == x;
      assert s[k + 1] == x;
    }
  }

  /** After TreeSet.add(m) the set has an element tied with m, and every tie
      it had before survives. */
  lemma TreeSetAddTies(s: seq<Meeting>, m: Meeting)
    requires Ascending(s)
    ensures HasTie(TreeSetAdd(s, m), m)
    ensures forall x :: HasTie(s, x) ==> HasTie(TreeSetAdd(s, m), x)
  {
    var r := TreeSetAdd(s, m);
    if HasTie(s, m) {
      var y :| y in s && y.startTime == m.startTime;
      assert y in r;
    } else {
      assert m in r;
    }
    forall x | HasTie(s, x)
      ensures HasTie(r, x)
    {
      var y :| y in s && y.startTime == x.startTime;
      assert y in r;
    }
  }

  /** The characters String.trim removes from either end: U+0000 to U+0020. */
  predicate Trimmable(c: char)
  {
    c <= ' '
  }

  /** StringUtils.isBlank of the JUnit platform: null, or empty once trimmed,
      that is, made of trimmable characters only. */
  predicate IsBlank(s: Option<string>)
  {
    s.None? || forall i :: 0 <= i < |s.value| ==> Trimmable(s.value[i])
  }

  /** String.trim: drops trimmable characters from the front, then from the back. */
  function Trim(s: string): string
  {
    TrimTrailing(TrimLeading(s))
  }

  /** The leading loop of String.trim. */
  function TrimLeading(s: string): string
    decreases |s|
  {
    if |s| > 0 && Trimmable(s[0]) then TrimLeading(s[1..]) else s
  }

  /** The trailing loop of String.trim. */
  function TrimTrailing(s: string): string
    decreases |s|
  {
    if |s| > 0 && Trimmable(s[|s| - 1]) then TrimTrailing(s[..|s| - 1]) else s
  }

  /** The leading loop empties a string exactly when every character is
      trimmable; otherwise it stops at a character that is not. */
  lemma {:induction false} TrimLeadingStops(s: string)
    ensures TrimLeading(s) == [] <==> forall i :: 0 <= i < |s| ==> Trimmable(s[i])
    ensures TrimLeading(s) != [] ==> !Trimmable(TrimLeading(s)[0])
    decreases |s|
  {
    if |s| > 0 && Trimmable(s[0]) {
      TrimLeadingStops(s[1..]);
      if TrimLeading(s) == [] {
        forall i | 0 <= i < |s|
          ensures Trimmable(s[i])
        {
          if i > 0 {
            assert s[1..][i - 1] == s[i];
          }
        }
      }
    }
  }

  /** The trailing loop never removes a first character that is not trimmable. */
  lemma {:induction false} TrimTrailingKeepsFront(s: string)
    requires |s| > 0 && !Trimmable(s[0])
    ensures TrimTrailing(s) != []
    decreases |s|
  {
    if Trimmable(s[|s| - 1]) {
      assert |s| > 1;
      assert s[..|s| - 1][0] == s[0];
      TrimTrailingKeepsFront(s[..|s| - 1]);
    }
  }

  /** isBlank is the same as trim().isEmpty() on a non-null string. */
  lemma BlankIsTrimmedEmpty(s: string)
    ensures IsBlank(Some(s)) <==> Trim(s) == ""
  {
    TrimLeadingStops(s);
    if TrimLeading(s) != [] {
      TrimTrailingKeepsFront(TrimLeading(s));
    }
  }
}
