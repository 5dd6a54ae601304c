/**
 * Room/time conflict detection for ongoing courses
 * (services/scheduleService.ts).
 *
 * Two schedules clash when they fall on the same weekday and their
 * half-open intervals [start, end) overlap, comparing the "HH:mm" strings
 * with JavaScript's string order. A course clashes with a candidate
 * schedule when its room equals the candidate's room after trimming and
 * lower-casing and one of its schedules clashes with that schedule.
 */
module ScheduleService {
  import opened Wrappers
  import opened Text
  import opened Seqs
  import opened Types

  /** `timesOverlap(startA, endA, startB, endB)`: `startA < endB && endA > startB`. */
  function TimesOverlap(startA: string, endA: string, startB: string, endB: string): (overlap: bool)
    ensures startA == endB || startB == endA ==> !overlap
  {
    LessIrreflexive(endB);
    LessIrreflexive(endA);
    Less(startA, endB) && Less(startB, endA)
  }

  /** Swapping the two intervals does not change the answer. */
  lemma TimesOverlapSymmetric(startA: string, endA: string, startB: string, endB: string)
    ensures TimesOverlap(startA, endA, startB, endB) == TimesOverlap(startB, endB, startA, endA)
  {
  }


  /** A non-empty interval lying inside another overlaps it. */
  lemma ContainedIntervalOverlaps(startA: string, endA: string, startB: string, endB: string)
    requires Less(startA, endA)
    requires LessEq(startB, startA) && LessEq(endA, endB)
    ensures TimesOverlap(startA, endA, startB, endB)
  {
    LessLessEqTransitive(startA, endA, endB);
    LessEqLessTransitive(startB, startA, endA);
  }

  /** The room key: `room.trim().toLowerCase()`. */
  function RoomKey(room: string): string {
    ToLower(Trim(room))
  }

  predicate SameRoom(roomA: string, roomB: string) {
    RoomKey(roomA) == RoomKey(roomB)
  }

  /** Same weekday and overlapping times. */
  predicate SlotsClash(s: Schedule, t: Schedule) {
    s.dayOfWeek == t.dayOfWeek && TimesOverlap(s.startTime, s.endTime, t.startTime, t.endTime)
  }

  /** Course `c` uses `room` during the candidate schedule `s`. */
  predicate Clashes(s: Schedule, room: string, c: Course) {
    SameRoom(c.room, room) && exists t :: t in c.schedules && SlotsClash(s, t)
  }

  /** A candidate that carries an id is not compared with the courses having that id. */
  predicate Compared(candidate: Course, c: Course) {
    candidate.id.None? || c.id != candidate.id
  }

  /** `coursesToCompare`: every course when adding, every other course when editing. */
  function CoursesToCompare(candidate: Course, allCourses: seq<Course>): (r: seq<Course>)
    ensures forall c :: c in r <==> c in allCourses && Compared(candidate, c)
  {
    if candidate.id.Some? then Filter(allCourses, (c: Course) => c.id != candidate.id) else allCourses
  }

  /** The first course of `courses` that clashes with schedule `s` (the two inner loops). */
  function FirstClashingCourse(s: Schedule, room: string, courses: seq<Course>): Option<Course> {
    if courses == [] then None
    else if Clashes(s, room, courses[0]) then Some(courses[0])
    else FirstClashingCourse(s, room, courses[1..])
  }

  /** `r` is the first course of `courses` that clashes with `s`, or `None` when none does. */
  predicate IsFirstClash(s: Schedule, room: string, courses: seq<Course>, r: Option<Course>) {
    && (r.None? <==> forall k :: 0 <= k < |courses| ==> !Clashes(s, room, courses[k]))
    && (r.Some? ==> exists k :: 0 <= k < |courses| && r.value == courses[k] && Clashes(s, room, courses[k])
                               && forall k' :: 0 <= k' < k ==> !Clashes(s, room, courses[k']))
  }

  lemma {:induction false} FirstClashingCourseSpec(s: Schedule, room: string, courses: seq<Course>)
    ensures IsFirstClash(s, room, courses, FirstClashingCourse(s, room, courses))
  {
    if courses != [] && !Clashes(s, room, courses[0]) {
      FirstClashingCourseSpec(s, room, courses[1..]);
      assert forall k :: 1 <= k < |courses| ==> courses[k] == courses[1..][k - 1];
      var r := FirstClashingCourse(s, room, courses);
      if r.Some? {
        var k :| 0 <= k < |courses[1..]| && r.value == courses[1..][k] && Clashes(s, room, courses[1..][k])
                 && forall k' :: 0 <= k' < k ==> !Clashes(s, room, courses[1..][k']);
        assert r.value == courses[k + 1];
      }
    }
  }

  /**
   * The reported course: candidate schedules outermost, then the compared
   * courses in order; the first clash found wins.
   */
  function FirstConflict(schedules: seq<Schedule>, room: string, courses: seq<Course>): Option<Course> {
    if schedules == [] then None
    else
      var here := FirstClashingCourse(schedules[0], room, courses);
      if here.Some? then here else FirstConflict(schedules[1..], room, courses)
  }

  /** `r` is the first clash found scanning the candidate schedules `schedules` in order. */
  predicate IsFirstConflict(schedules: seq<Schedule>, room: string, courses: seq<Course>, r: Option<Course>) {
    && (r.None? <==> forall i :: 0 <= i < |schedules| ==> FirstClashingCourse(schedules[i], room, courses).None?)
    && (r.Some? ==> exists i :: 0 <= i < |schedules| && r == FirstClashingCourse(schedules[i], room, courses)
                               && forall i' :: 0 <= i' < i ==> FirstClashingCourse(schedules[i'], room, courses).None?)
  }

  lemma {:induction false} FirstConflictSpec(schedules: seq<Schedule>, room: string, courses: seq<Course>)
    ensures IsFirstConflict(schedules, room, courses, FirstConflict(schedules, room, courses))
  {
    if schedules != [] && FirstClashingCourse(schedules[0], room, courses).None? {
      FirstConflictSpec(schedules[1..], room, courses);
      assert forall i :: 1 <= i < |schedules| ==> schedules[i] == schedules[1..][i - 1];
      var r := FirstConflict(schedules, room, courses);
      if r.Some? {
        var i :| 0 <= i < |schedules[1..]| && r == FirstClashingCourse(schedules[1..][i], room, courses)
                 && forall i' :: 0 <= i' < i ==> FirstClashingCourse(schedules[1..][i'], room, courses).None?;
        assert schedules[i + 1] == schedules[1..][i];
      }
    }
  }

  lemma {:induction false} FirstClashInList(s: Schedule, room: string, courses: seq<Course>)
    ensures var r := FirstClashingCourse(s, room, courses);
      r.Some? ==> r.value in courses && SameRoom(r.value.room, room)
  {
    if courses != [] && !Clashes(s, room, courses[0]) {
      FirstClashInList(s, room, courses[1..]);
    }
  }

  lemma {:induction false} FirstConflictInList(schedules: seq<Schedule>, room: string, courses: seq<Course>)
    ensures var r := FirstConflict(schedules, room, courses);
      r.Some? ==> r.value in courses && SameRoom(r.value.room, room)
  {
    if schedules != [] {
      FirstClashInList(schedules[0], room, courses);
      FirstConflictInList(schedules[1..], room, courses);
    }
  }

  /** What `findScheduleConflict(courseToCheck, allCourses)` returns. */
  function ScheduleConflict(candidate: Course, allCourses: seq<Course>): (r: Option<Course>)
    ensures r.Some? ==> r.value in allCourses && Compared(candidate, r.value) && SameRoom(r.value.room, candidate.room)
  {
    FirstConflictInList(candidate.schedules, candidate.room, CoursesToCompare(candidate, allCourses));
    FirstConflict(candidate.schedules, candidate.room, CoursesToCompare(candidate, allCourses))
  }

  /** `findScheduleConflict`: the triple loop with an early return. */
  method FindScheduleConflict(candidate: Course, allCourses: seq<Course>) returns (conflict: Option<Course>)
    ensures conflict == ScheduleConflict(candidate, allCourses)
  {
    var coursesToCompare := CoursesToCompare(candidate, allCourses);
    var roomKey := RoomKey(candidate.room);
    var i := 0;
    while i < |candidate.schedules|
      invariant 0 <= i <= |candidate.schedules|
      invariant ScheduleConflict(candidate, allCourses)
                == FirstConflict(candidate.schedules[i..], candidate.room, coursesToCompare)
    {
      var scheduleToCheck := candidate.schedules[i];
      assert candidate.schedules[i..][1..] == candidate.schedules[i + 1..];
      var k := 0;
      while k < |coursesToCompare|
        invariant 0 <= k <= |coursesToCompare|
        invariant FirstClashingCourse(scheduleToCheck, candidate.room, coursesToCompare)
                  == FirstClashingCourse(scheduleToCheck, candidate.room, coursesToCompare[k..])
      {
        var existingCourse := coursesToCompare[k];
        assert coursesToCompare[k..][1..] == coursesToCompare[k + 1..];
        if RoomKey(existingCourse.room) == roomKey {
          var j := 0;
          while j < |existingCourse.schedules|
            invariant 0 <= j <= |existingCourse.schedules|
            invariant forall t :: 0 <= t < j ==> !SlotsClash(scheduleToCheck, existingCourse.schedules[t])
          {
            var existingSchedule := existingCourse.schedules[j];
            if scheduleToCheck.dayOfWeek == existingSchedule.dayOfWeek
              && Less(scheduleToCheck.startTime, existingSchedule.endTime)
              && Less(existingSchedule.startTime, scheduleToCheck.endTime)
            {
              assert Clashes(scheduleToCheck, candidate.room, existingCourse) by {
                assert existingSchedule in existingCourse.schedules;
              }
              assert candidate.schedules[i..][0] == scheduleToCheck;
              return Some(existingCourse);
            }
            j := j + 1;
          }
        }
        k := k + 1;
      }
      i := i + 1;
    }
    return None;
  }

  /**
   * Soundness: a reported course is one of `allCourses`, is not the candidate
   * itself, uses the candidate's room, and has a schedule clashing with one
   * of the candidate's schedules.
   */
  lemma ConflictIsSound(candidate: Course, allCourses: seq<Course>)
    ensures ScheduleConflict(candidate, allCourses).Some? ==>
      var c := ScheduleConflict(candidate, allCourses).value;
      && c in allCourses
      && Compared(candidate, c)
      && SameRoom(c.room, candidate.room)
      && exists s, t :: s in candidate.schedules && t in c.schedules && SlotsClash(s, t)
  {
    var compare := CoursesToCompare(candidate, allCourses);
    var r := ScheduleConflict(candidate, allCourses);
    FirstConflictSpec(candidate.schedules, candidate.room, compare);
    if r.Some? {
      var i :| 0 <= i < |candidate.schedules| && r == FirstClashingCourse(candidate.schedules[i], candidate.room, compare);
      FirstClashingCourseSpec(candidate.schedules[i], candidate.room, compare);
      var k :| 0 <= k < |compare| && r.value == compare[k] && Clashes(candidate.schedules[i], candidate.room, compare[k]);
      var t :| t in compare[k].schedules && SlotsClash(candidate.schedules[i], t);
      assert candidate.schedules[i] in candidate.schedules;
    }
  }

  /** Completeness: no conflict is reported exactly when no (schedule, course, schedule) triple clashes. */
  lemma NoConflictIffNoClash(candidate: Course, allCourses: seq<Course>)
    ensures ScheduleConflict(candidate, allCourses).None? <==>
      !exists s, c, t :: s in candidate.schedules && c in allCourses && t in c.schedules
                         && Compared(candidate, c) && SameRoom(c.room, candidate.room) && SlotsClash(s, t)
  {
    var compare := CoursesToCompare(candidate, allCourses);
    FirstConflictSpec(candidate.schedules, candidate.room, compare);
    if ScheduleConflict(candidate, allCourses).None? {
      forall s, c, t | s in candidate.schedules && c in allCourses && t in c.schedules
                       && Compared(candidate, c) && SameRoom(c.room, candidate.room)
        ensures !SlotsClash(s, t)
      {
        var i :| 0 <= i < |candidate.schedules| && candidate.schedules[i] == s;
        var k :| 0 <= k < |compare| && compare[k] == c;
        FirstClashingCourseSpec(s, candidate.room, compare);
        assert !Clashes(s, candidate.room, c);
      }
    } else {
      ConflictIsSound(candidate, allCourses);
    }
  }

  /** When the inner loops find nothing, no compared course clashes. */
  lemma NoClashFound(s: Schedule, room: string, courses: seq<Course>, k: nat)
    requires k < |courses| && FirstClashingCourse(s, room, courses).None?
    ensures !Clashes(s, room, courses[k])
  {
    FirstClashingCourseSpec(s, room, courses);
  }

  /**
   * First match: the reported course is, among the compared courses, the first
   * that clashes with the earliest candidate schedule that has any clash.
   */
  lemma ConflictIsFirstMatch(candidate: Course, allCourses: seq<Course>)
    ensures ScheduleConflict(candidate, allCourses).Some? ==>
      var compare := CoursesToCompare(candidate, allCourses);
      var sch := candidate.schedules;
      exists i, k :: 0 <= i < |sch| && 0 <= k < |compare|
        && ScheduleConflict(candidate, allCourses).value == compare[k]
        && Clashes(sch[i], candidate.room, compare[k])
        && (forall i', k' :: 0 <= i' < i && 0 <= k' < |compare| ==> !Clashes(sch[i'], candidate.room, compare[k']))
        && (forall k' :: 0 <= k' < k ==> !Clashes(sch[i], candidate.room, compare[k']))
  {
    var compare := CoursesToCompare(candidate, allCourses);
    var sch := candidate.schedules;
    var r := ScheduleConflict(candidate, allCourses);
    FirstConflictSpec(sch, candidate.room, compare);
    if r.Some? {
      var i :| 0 <= i < |sch| && r == FirstClashingCourse(sch[i], candidate.room, compare)
               && forall i' :: 0 <= i' < i ==> FirstClashingCourse(sch[i'], candidate.room, compare).None?;
      FirstClashingCourseSpec(sch[i], candidate.room, compare);
      forall i', k' | 0 <= i' < i && 0 <= k' < |compare|
        ensures !Clashes(sch[i'], candidate.room, compare[k'])
      {
        NoClashFound(sch[i'], candidate.room, compare, k');
      }
      var k :| 0 <= k < |compare| && r.value == compare[k] && Clashes(sch[i], candidate.room, compare[k])
               && forall k' :: 0 <= k' < k ==> !Clashes(sch[i], candidate.room, compare[k']);
    }
  }

  /** A candidate without schedules, or an empty course list, never conflicts. */
  lemma EmptyInputsNeverConflict(candidate: Course, allCourses: seq<Course>)
    requires candidate.schedules == [] || allCourses == []
    ensures ScheduleConflict(candidate, allCourses) == None
  {
    if candidate.schedules != [] {
      ScheduleConflictNoneWhenNothingCompared(candidate.schedules, candidate.room);
    }
  }

  lemma {:induction false} ScheduleConflictNoneWhenNothingCompared(schedules: seq<Schedule>, room: string)
    ensures FirstConflict(schedules, room, []) == None
  {
    if schedules != [] {
      ScheduleConflictNoneWhenNothingCompared(schedules[1..], room);
    }
  }

  /**
   * Re-checking a saved course against a list that contains it unchanged
   * never reports the course itself, nor any other course with its id.
   */
  lemma NoSelfConflict(course: Course, allCourses: seq<Course>)
    requires course.id.Some?
    ensures ScheduleConflict(course, allCourses).Some? ==>
      ScheduleConflict(course, allCourses).value.id != course.id
  {
    ConflictIsSound(course, allCourses);
  }

  /**
   * A candidate without id whose first schedule clashes with the first
   * schedule of the only course, in the same room, is reported against it.
   */
  lemma FirstScheduleClashReported(candidate: Course, existing: Course)
    requires candidate.id.None? && candidate.schedules != [] && existing.schedules != []
    requires SameRoom(existing.room, candidate.room)
    requires SlotsClash(candidate.schedules[0], existing.schedules[0])
    ensures ScheduleConflict(candidate, [existing]) == Some(existing)
  {
    assert existing.schedules[0] in existing.schedules;
    assert Clashes(candidate.schedules[0], candidate.room, existing);
    assert FirstClashingCourse(candidate.schedules[0], candidate.room, [existing]) == Some(existing);
  }

  /** The two spellings of the room share one key. */
  lemma ExampleRoomKeys()
    ensures SameRoom("Sala 101", "sala 101")
  {
    assert Trim("Sala 101") == "Sala 101";
    assert Trim("sala 101") == "sala 101";
  }

  /** 10:00-11:00 lies inside 08:00-12:00 on the same weekday. */
  lemma ExampleContainedSlot()
    ensures SlotsClash(Schedule(1, "10:00", "11:00"), Schedule(1, "08:00", "12:00"))
  {
  }

  /** Room, weekday and a contained interval, with the room differing only in case. */
  lemma ExampleCaseInsensitiveRoomClash()
    ensures
      var existing := Course(Some("101"), "Sala 101", "Design", "A", [Schedule(1, "08:00", "12:00")]);
      var candidate := Course(None, "sala 101", "Novo", "A", [Schedule(1, "10:00", "11:00")]);
      ScheduleConflict(candidate, [existing]) == Some(existing)
  {
    ExampleRoomKeys();
    ExampleContainedSlot();
    FirstScheduleClashReported(
      Course(None, "sala 101", "Novo", "A", [Schedule(1, "10:00", "11:00")]),
      Course(Some("101"), "Sala 101", "Design", "A", [Schedule(1, "08:00", "12:00")]));
  }
}
