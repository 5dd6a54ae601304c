/**
 * The public "ongoing courses" panel (components/OngoingCourses.tsx): the
 * courses with a schedule starting in the current shift of the current
 * weekday, grouped by block, shown one block at a time by a carousel.
 *
 * The clock (`new Date()`) is read by the caller: the hour and the weekday
 * are parameters. The timers that call `Refresh` every minute and
 * `Advance` every 15 seconds are not modelled.
 */
module OngoingCourses {
  import opened Wrappers
  import opened Text
  import opened Seqs
  import opened Types
  import CsvParser

  // ---------------------------------------------------------------------
  // Shifts
  // ---------------------------------------------------------------------

  datatype Shift = Morning | Afternoon | Night

  /** `getCurrentShift` for the hour `hour` (0 to 23). */
  function CurrentShift(hour: int): (shift: Shift)
    ensures 5 <= hour <= 23 ==> WindowBounds(shift).0 <= 100 * hour <= WindowBounds(shift).1
  {
    if 5 <= hour < 12 then Morning
    else if 12 <= hour < 18 then Afternoon
    else Night
  }

  /** A window of "HH:mm" start times, both bounds included. */
  datatype Window = Window(start: string, end: string)

  /** `shiftTimes`. */
  function ShiftTimes(shift: Shift): (w: Window)
    ensures CsvParser.TimeOk(w.start) && CsvParser.TimeOk(w.end)
  {
    match shift
    case Morning => Window("05:00", "11:59")
    case Afternoon => Window("12:00", "17:59")
    case Night => Window("18:00", "23:59")
  }

  /** `t >= start && t <= end` with JavaScript's string comparison. */
  predicate InWindow(t: string, w: Window) {
    !Less(t, w.start) && !Less(w.end, t)
  }

  /** The numeric bounds `100 * HH + mm` of each window. */
  function WindowBounds(shift: Shift): (int, int) {
    match shift
    case Morning => (500, 1159)
    case Afternoon => (1200, 1759)
    case Night => (1800, 2359)
  }

  /** The "HH:mm" spelling of hour `h` and minute `m`. */
  function ClockTime(h: nat, m: nat): (t: string)
    requires h < 24 && m < 60
    ensures CsvParser.TimeOk(t)
  {
    [DigitChar(h / 10), DigitChar(h % 10), ':', DigitChar(m / 10), DigitChar(m % 10)]
  }

  lemma DigitValue(d: nat)
    requires d < 10
    ensures DigitsValue([DigitChar(d)]) == d
  {
    assert [DigitChar(d)][..0] == [];
  }

  lemma ClockValueOfClockTime(h: nat, m: nat)
    requires h < 24 && m < 60
    ensures CsvParser.ClockValue(ClockTime(h, m)) == 100 * h + m
  {
    var t := ClockTime(h, m);
    DigitValue(h / 10);
    DigitValue(h % 10);
    DigitValue(m / 10);
    DigitValue(m % 10);
    assert [t[0]] == [DigitChar(h / 10)] && [t[1]] == [DigitChar(h % 10)];
    assert [t[3]] == [DigitChar(m / 10)] && [t[4]] == [DigitChar(m % 10)];
  }

  /** Every window is written in "HH:mm" form and spells the numeric bounds. */
  lemma WindowsSpellBounds(shift: Shift)
    ensures CsvParser.ClockValue(ShiftTimes(shift).start) == WindowBounds(shift).0
    ensures CsvParser.ClockValue(ShiftTimes(shift).end) == WindowBounds(shift).1
  {
    match shift
    case Morning =>
      assert ShiftTimes(shift).start == ClockTime(5, 0) && ShiftTimes(shift).end == ClockTime(11, 59);
      ClockValueOfClockTime(5, 0);
      ClockValueOfClockTime(11, 59);
    case Afternoon =>
      assert ShiftTimes(shift).start == ClockTime(12, 0) && ShiftTimes(shift).end == ClockTime(17, 59);
      ClockValueOfClockTime(12, 0);
      ClockValueOfClockTime(17, 59);
    case Night =>
      assert ShiftTimes(shift).start == ClockTime(18, 0) && ShiftTimes(shift).end == ClockTime(23, 59);
      ClockValueOfClockTime(18, 0);
      ClockValueOfClockTime(23, 59);
  }

  /** On "HH:mm" times the string test of the window is the numeric test, both bounds included. */
  lemma InWindowIsNumeric(t: string, shift: Shift)
    requires CsvParser.TimeOk(t)
    ensures InWindow(t, ShiftTimes(shift)) <==>
      WindowBounds(shift).0 <= CsvParser.ClockValue(t) <= WindowBounds(shift).1
  {
    WindowsSpellBounds(shift);
    CsvParser.TimeOrderIsNumeric(t, ShiftTimes(shift).start);
    CsvParser.TimeOrderIsNumeric(ShiftTimes(shift).end, t);
  }

  /**
   * The shift chosen for a clock time is the one whose window holds it, from
   * 05:00 on; before 05:00 the night shift is chosen though no window holds
   * the time.
   */
  lemma ShiftWindowHoldsClock(h: nat, m: nat)
    requires h < 24 && m < 60
    ensures InWindow(ClockTime(h, m), ShiftTimes(CurrentShift(h))) <==> 5 <= h
  {
    ClockValueOfClockTime(h, m);
    InWindowIsNumeric(ClockTime(h, m), CurrentShift(h));
  }

  // ---------------------------------------------------------------------
  // Active courses
  // ---------------------------------------------------------------------

  /** The test of `filterCoursesByShift` and `findActiveSchedule` on one schedule. */
  predicate ActiveSchedule(s: Schedule, day: int, hour: int) {
    s.dayOfWeek == day && InWindow(s.startTime, ShiftTimes(CurrentShift(hour)))
  }

  /** `course.schedules.some(...)`. */
  predicate HasActiveSchedule(c: Course, day: int, hour: int) {
    exists s :: s in c.schedules && ActiveSchedule(s, day, hour)
  }

  /** `filterCoursesByShift` on weekday `day` at hour `hour`. */
  function FilterCoursesByShift(courses: seq<Course>, day: int, hour: int): (r: seq<Course>)
    ensures IsSubsequence(r, courses)
    ensures forall c :: c in r <==> c in courses && HasActiveSchedule(c, day, hour)
    ensures forall c {:trigger multiset(r)[c]} :: multiset(r)[c] == if HasActiveSchedule(c, day, hour) then multiset(courses)[c] else 0
  {
    Filter(courses, c => HasActiveSchedule(c, day, hour))
  }

  /** On well-formed times a course is active exactly when a schedule starts inside the numeric window. */
  lemma ActiveIsNumeric(s: Schedule, day: int, hour: int)
    requires CsvParser.TimeOk(s.startTime)
    ensures ActiveSchedule(s, day, hour) <==>
      var (lo, hi) := WindowBounds(CurrentShift(hour));
      s.dayOfWeek == day && lo <= CsvParser.ClockValue(s.startTime) <= hi
  {
    InWindowIsNumeric(s.startTime, CurrentShift(hour));
  }

  /** `course.schedules.find(...)`: the first active schedule. */
  function FindActiveSchedule(schedules: seq<Schedule>, day: int, hour: int): (r: Option<Schedule>)
    ensures r.Some? ==> r.value in schedules && ActiveSchedule(r.value, day, hour)
  {
    if schedules == [] then None
    else if ActiveSchedule(schedules[0], day, hour) then Some(schedules[0])
    else FindActiveSchedule(schedules[1..], day, hour)
  }

  /**
   * A schedule is found exactly when one is active (for a course's
   * schedules: exactly when the course passes the filter), and it is the
   * first active schedule in order.
   */
  lemma {:induction false} FindActiveScheduleSpec(schedules: seq<Schedule>, day: int, hour: int)
    ensures FindActiveSchedule(schedules, day, hour).Some? <==>
      exists s :: s in schedules && ActiveSchedule(s, day, hour)
    ensures FindActiveSchedule(schedules, day, hour).Some? ==>
      exists k :: 0 <= k < |schedules| && schedules[k] == FindActiveSchedule(schedules, day, hour).value
        && ActiveSchedule(schedules[k], day, hour)
        && forall k' :: 0 <= k' < k ==> !ActiveSchedule(schedules[k'], day, hour)
  {
    var s := schedules;
    if s != [] && !ActiveSchedule(s[0], day, hour) {
      FindActiveScheduleSpec(s[1..], day, hour);
      var r := FindActiveSchedule(s, day, hour);
      assert r == FindActiveSchedule(s[1..], day, hour);
      if r.Some? {
        var k :| 0 <= k < |s[1..]| && s[1..][k] == r.value && ActiveSchedule(s[1..][k], day, hour)
                 && forall k' :: 0 <= k' < k ==> !ActiveSchedule(s[1..][k'], day, hour);
        assert s[k + 1] == s[1..][k];
        assert forall k' :: 1 <= k' < k + 1 ==> s[k'] == s[1..][k' - 1];
      } else {
        assert forall x :: x in s ==> x == s[0] || x in s[1..];
      }
    } else if s != [] {
      assert s[0] in s;
    }
  }

  /** The schedule shown on a course's card exists exactly when the course is active. */
  lemma ActiveCourseHasSchedule(c: Course, day: int, hour: int)
    ensures FindActiveSchedule(c.schedules, day, hour).Some? <==> HasActiveSchedule(c, day, hour)
  {
    FindActiveScheduleSpec(c.schedules, day, hour);
  }

  // ---------------------------------------------------------------------
  // Grouping by block
  // ---------------------------------------------------------------------

  /** `course.block || 'A'`. */
  function BlockOf(c: Course): (b: string)
    ensures b != []
  {
    if c.block == "" then "A" else c.block
  }

  function InBlock(key: string): Course -> bool {
    c => BlockOf(c) == key
  }

  /** The grouping `reduce`: each course pushed onto the list of its block. */
  function Grouped(courses: seq<Course>): map<string, seq<Course>> {
    if courses == [] then map[]
    else
      var g := Grouped(courses[..|courses| - 1]);
      var c := courses[|courses| - 1];
      var b := BlockOf(c);
      g[b := (if b in g then g[b] else []) + [c]]
  }

  /** The keys of the grouping object, in the order they were created. */
  function BlockOrder(courses: seq<Course>): seq<string> {
    if courses == [] then []
    else
      var keys := BlockOrder(courses[..|courses| - 1]);
      var b := BlockOf(courses[|courses| - 1]);
      if b in keys then keys else keys + [b]
  }

  /** The group of `key`, empty when the key is absent. */
  function GroupOf(g: map<string, seq<Course>>, key: string): seq<Course> {
    if key in g then g[key] else []
  }

  /** One more course of the `reduce`. */
  lemma GroupedNext(courses: seq<Course>, i: nat)
    requires i < |courses|
    ensures var g := Grouped(courses[..i]);
      Grouped(courses[..i + 1]) == g[BlockOf(courses[i]) := GroupOf(g, BlockOf(courses[i])) + [courses[i]]]
    ensures var keys := BlockOrder(courses[..i]);
      BlockOrder(courses[..i + 1]) == if BlockOf(courses[i]) in keys then keys else keys + [BlockOf(courses[i])]
  {
    assert courses[..i + 1][..i] == courses[..i];
  }

  /** The group of `key` holds exactly the courses of that block, in their original order. */
  lemma {:induction false} GroupIsBlockFilter(courses: seq<Course>, key: string)
    ensures GroupOf(Grouped(courses), key) == Filter(courses, InBlock(key))
  {
    if courses != [] {
      var prefix := courses[..|courses| - 1];
      var c := courses[|courses| - 1];
      GroupIsBlockFilter(prefix, key);
      assert courses == prefix + [c];
      FilterAppend(prefix, [c], InBlock(key));
      FilterSingleton(c, InBlock(key));
      GroupOfLast(courses, key);
    }
  }

  /** The last course joins the group of its own block and no other. */
  lemma GroupOfLast(courses: seq<Course>, key: string)
    requires courses != []
    ensures var c := courses[|courses| - 1];
      GroupOf(Grouped(courses), key)
        == GroupOf(Grouped(courses[..|courses| - 1]), key) + (if BlockOf(c) == key then [c] else [])
  {
  }

  /** The grouping object has the key `key` exactly when the creation order lists it. */
  lemma {:induction false} GroupKeyListed(courses: seq<Course>, key: string)
    ensures key in Grouped(courses) <==> key in BlockOrder(courses)
  {
    if courses != [] {
      GroupKeyListed(courses[..|courses| - 1], key);
    }
  }

  /** The grouping object has a key exactly when the creation order lists it, and exactly for the blocks of the courses. */
  lemma {:induction false} GroupKeysAreBlocks(courses: seq<Course>)
    ensures forall key :: key in Grouped(courses) <==> key in BlockOrder(courses)
    ensures forall key :: key in Grouped(courses) <==> exists c :: c in courses && BlockOf(c) == key
  {
    forall key {
      GroupKeyListed(courses, key);
    }
    if courses != [] {
      var prefix := courses[..|courses| - 1];
      var c := courses[|courses| - 1];
      GroupKeysAreBlocks(prefix);
      assert forall x :: x in courses <==> x in prefix || x == c;
    }
  }

  /** Replacing a group twice keeps only the second value. */
  lemma UpdateTwice(g: map<string, seq<Course>>, key: string, first: seq<Course>, second: seq<Course>)
    ensures g[key := first][key := second] == g[key := second]
  {
  }

  /** The creation order lists each block once. */
  lemma {:induction false} BlockOrderDistinct(courses: seq<Course>)
    ensures forall i, j :: 0 <= i < j < |BlockOrder(courses)| ==> BlockOrder(courses)[i] != BlockOrder(courses)[j]
  {
    if courses != [] {
      BlockOrderDistinct(courses[..|courses| - 1]);
    }
  }

  /**
   * Each group holds exactly the courses of its block, in their original
   * order, and a block has a group exactly when one of its courses is
   * active; the creation order lists each block once.
   */
  lemma GroupedByBlock(courses: seq<Course>)
    ensures forall key :: GroupOf(Grouped(courses), key) == Filter(courses, InBlock(key))
    ensures forall key :: key in Grouped(courses) <==> key in BlockOrder(courses)
    ensures forall key :: key in Grouped(courses) <==> exists c :: c in courses && BlockOf(c) == key
    ensures forall i, j :: 0 <= i < j < |BlockOrder(courses)| ==> BlockOrder(courses)[i] != BlockOrder(courses)[j]
  {
    forall key
      ensures GroupOf(Grouped(courses), key) == Filter(courses, InBlock(key))
    {
      GroupIsBlockFilter(courses, key);
    }
    GroupKeysAreBlocks(courses);
    BlockOrderDistinct(courses);
  }

  /** Every active course falls in exactly one group: the one of its block. */
  lemma EveryCourseInOneGroup(courses: seq<Course>, c: Course)
    requires c in courses
    ensures BlockOf(c) in Grouped(courses) && c in Grouped(courses)[BlockOf(c)]
    ensures forall key :: key in Grouped(courses) && key != BlockOf(c) ==> c !in Grouped(courses)[key]
  {
    GroupedByBlock(courses);
    assert GroupOf(Grouped(courses), BlockOf(c)) == Filter(courses, InBlock(BlockOf(c)));
    forall key | key in Grouped(courses) && key != BlockOf(c)
      ensures c !in Grouped(courses)[key]
    {
      assert GroupOf(Grouped(courses), key) == Filter(courses, InBlock(key));
    }
  }

  // ---------------------------------------------------------------------
  // Sorting the block keys
  // ---------------------------------------------------------------------

  predicate StrictlySorted(keys: seq<string>) {
    forall i, j :: 0 <= i < j < |keys| ==> Less(keys[i], keys[j])
  }

  function Insert(x: string, sorted: seq<string>): (r: seq<string>)
    ensures multiset(r) == multiset(sorted) + multiset{x}
  {
    if sorted == [] then [x]
    else if Less(sorted[0], x) then
      assert sorted == [sorted[0]] + sorted[1..];
      [sorted[0]] + Insert(x, sorted[1..])
    else [x] + sorted
  }

  /** `keys.sort()`, by insertion. */
  function SortStrings(keys: seq<string>): (r: seq<string>)
    ensures multiset(r) == multiset(keys)
  {
    if keys == [] then []
    else
      assert keys == [keys[0]] + keys[1..];
      Insert(keys[0], SortStrings(keys[1..]))
  }

  lemma {:induction false} InsertKeepsSorted(x: string, sorted: seq<string>)
    requires StrictlySorted(sorted) && x !in sorted
    ensures StrictlySorted(Insert(x, sorted))
  {
    if sorted != [] {
      var r := Insert(x, sorted);
      if Less(sorted[0], x) {
        InsertKeepsSorted(x, sorted[1..]);
        var tail := Insert(x, sorted[1..]);
        forall k | 0 <= k < |tail|
          ensures Less(sorted[0], tail[k])
        {
          assert tail[k] in multiset(tail);
          if tail[k] != x {
            var j :| 0 <= j < |sorted[1..]| && sorted[1..][j] == tail[k];
            assert sorted[j + 1] == tail[k];
          }
        }
      } else {
        LessTotal(sorted[0], x);
        assert sorted[0] in sorted;
        forall j | 0 < j < |sorted|
          ensures Less(x, sorted[j])
        {
          LessTransitive(x, sorted[0], sorted[j]);
        }
      }
    }
  }

  /** Sorting distinct keys gives them in strictly ascending order, each once. */
  lemma {:induction false} SortStringsSorted(keys: seq<string>)
    requires forall i, j :: 0 <= i < j < |keys| ==> keys[i] != keys[j]
    ensures StrictlySorted(SortStrings(keys))
  {
    if keys != [] {
      SortStringsSorted(keys[1..]);
      var rest := SortStrings(keys[1..]);
      assert keys[0] !in keys[1..];
      assert keys[0] !in multiset(rest);
      InsertKeepsSorted(keys[0], rest);
    }
  }

  /** `Object.keys(groupedCourses).sort()`. */
  function BlockKeys(courses: seq<Course>): seq<string> {
    SortStrings(BlockOrder(courses))
  }

  /** The block keys are the blocks of the groups, strictly ascending, each once. */
  lemma BlockKeysSorted(courses: seq<Course>)
    ensures StrictlySorted(BlockKeys(courses))
    ensures forall key :: key in BlockKeys(courses) <==> key in Grouped(courses)
  {
    GroupedByBlock(courses);
    SortStringsSorted(BlockOrder(courses));
    assert forall key :: key in BlockKeys(courses) <==> key in multiset(BlockOrder(courses));
  }

  /** The reduce and the key sort of the panel, as written. */
  method GroupActiveCourses(activeCourses: seq<Course>) returns (groupedCourses: map<string, seq<Course>>, blockKeys: seq<string>)
    ensures groupedCourses == Grouped(activeCourses)
    ensures blockKeys == BlockKeys(activeCourses)
  {
    groupedCourses := map[];
    var keys: seq<string> := [];
    var i := 0;
    while i < |activeCourses|
      invariant 0 <= i <= |activeCourses|
      invariant groupedCourses == Grouped(activeCourses[..i])
      invariant keys == BlockOrder(activeCourses[..i])
    {
      groupedCourses, keys := PushCourse(activeCourses, i, groupedCourses, keys);
      i := i + 1;
    }
    assert activeCourses[..i] == activeCourses;
    blockKeys := SortStrings(keys);
  }

  /** The body of the `reduce` for course `i`: push it onto its block, creating the block if new. */
  method PushCourse(activeCourses: seq<Course>, i: nat, grouped: map<string, seq<Course>>, keys: seq<string>)
    returns (grouped': map<string, seq<Course>>, keys': seq<string>)
    requires i < |activeCourses|
    requires grouped == Grouped(activeCourses[..i]) && keys == BlockOrder(activeCourses[..i])
    ensures grouped' == Grouped(activeCourses[..i + 1]) && keys' == BlockOrder(activeCourses[..i + 1])
  {
    grouped', keys' := grouped, keys;
    var course := activeCourses[i];
    var block := if course.block == "" then "A" else course.block;
    GroupedNext(activeCourses, i);
    GroupKeyListed(activeCourses[..i], block);
    if block !in grouped' {
      UpdateTwice(grouped', block, [], [course]);
      grouped' := grouped'[block := []];
      keys' := keys' + [block];
    }
    grouped' := grouped'[block := grouped'[block] + [course]];
  }

  // ---------------------------------------------------------------------
  // The panel's state: active courses and the block carousel
  // ---------------------------------------------------------------------

  /** The state of the panel: `activeCourses` and `currentBlockIndex`. */
  class ShiftBoard {
    var activeCourses: seq<Course>
    var currentBlockIndex: nat

    /** The carousel index names a block, or is 0 when there is none. */
    ghost predicate Valid()
      reads this
    {
      currentBlockIndex == 0 || currentBlockIndex < |BlockKeys(activeCourses)|
    }

    /** The initial state: the courses active now, first block. */
    constructor(courses: seq<Course>, day: int, hour: int)
      ensures activeCourses == FilterCoursesByShift(courses, day, hour)
      ensures currentBlockIndex == 0
      ensures Valid()
    {
      activeCourses := FilterCoursesByShift(courses, day, hour);
      currentBlockIndex := 0;
    }

    /** The minute timer: a changed set of active courses resets the carousel. */
    method Refresh(courses: seq<Course>, day: int, hour: int)
      requires Valid()
      modifies this
      ensures activeCourses == FilterCoursesByShift(courses, day, hour)
      ensures currentBlockIndex == if activeCourses == old(activeCourses) then old(currentBlockIndex) else 0
      ensures Valid()
    {
      var currentlyActive := FilterCoursesByShift(courses, day, hour);
      if currentlyActive != activeCourses {
        activeCourses := currentlyActive;
        currentBlockIndex := 0;
      }
    }

    /** The carousel timer, which runs only when there are two blocks or more: `(prev + 1) % n`. */
    method Advance()
      requires Valid()
      modifies this
      ensures activeCourses == old(activeCourses)
      ensures var n := |BlockKeys(activeCourses)|;
        currentBlockIndex == if n <= 1 then old(currentBlockIndex) else (old(currentBlockIndex) + 1) % n
      ensures Valid()
    {
      var n := |BlockKeys(activeCourses)|;
      if n > 1 {
        currentBlockIndex := (currentBlockIndex + 1) % n;
      }
    }

    /** The block on screen: `blockKeys[currentBlockIndex]`, when there is a block. */
    function CurrentBlock(): (key: Option<string>)
      requires Valid()
      reads this
      ensures key.Some? <==> activeCourses != []
      ensures key.Some? ==> key.value in Grouped(activeCourses)
    {
      BlockKeysSorted(activeCourses);
      GroupedByBlock(activeCourses);
      var keys := BlockKeys(activeCourses);
      if |keys| == 0 then None
      else Some(keys[currentBlockIndex])
    }
  }
}
