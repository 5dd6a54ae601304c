/**
 * The list operations of the administration panel
 * (components/AdminPanel.tsx): saving, deleting and searching open
 * enrollments and ongoing courses, editing a course's schedules, the batch
 * CSV import of ongoing courses and their CSV export.
 *
 * The panels hand pure list transforms to React state setters; those are
 * functions here. The import and the export are loops pushing into arrays;
 * those are methods proved against the functions that specify them.
 * Fresh ids (`crypto.randomUUID()`, the import's `temp-${Math.random()}`)
 * are parameters.
 */
module AdminPanel {
  import opened Wrappers
  import opened Text
  import opened Seqs
  import opened Types
  import opened ScheduleService
  import CsvParser
  import CsvQuoting

  // ---------------------------------------------------------------------
  // Saving and deleting by id (both panels)
  // ---------------------------------------------------------------------

  /**
   * The list `handleSave` stores: an edited record that carries an id
   * replaces every record with that id (`prev.map(...)`); a new record is
   * appended with the fresh id `newId`.
   */
  function Upsert<T>(records: seq<T>, idOf: T -> Option<string>, withId: (T, string) -> T,
                     edited: T, newId: string): (r: seq<T>)
    ensures |r| == if idOf(edited).Some? then |records| else |records| + 1
    ensures forall i :: 0 <= i < |records| && (idOf(edited).None? || idOf(records[i]) != idOf(edited)) ==> r[i] == records[i]
  {
    if idOf(edited).Some? then
      seq(|records|, i requires 0 <= i < |records| =>
        if idOf(records[i]) == idOf(edited) then edited else records[i])
    else records + [withId(edited, newId)]
  }

  /**
   * Saving a record that has an id replaces exactly the records with that id,
   * leaves every other record where it was, and keeps the id of every
   * position.
   */
  lemma UpsertReplacesById<T>(records: seq<T>, idOf: T -> Option<string>, withId: (T, string) -> T,
                              edited: T, newId: string)
    requires idOf(edited).Some?
    ensures var r := Upsert(records, idOf, withId, edited, newId);
      && |r| == |records|
      && (forall i :: 0 <= i < |records| && idOf(records[i]) == idOf(edited) ==> r[i] == edited)
      && (forall i :: 0 <= i < |records| && idOf(records[i]) != idOf(edited) ==> r[i] == records[i])
      && (forall i :: 0 <= i < |records| ==> idOf(r[i]) == idOf(records[i]))
  {
  }

  /** Saving a record without an id appends exactly one record, carrying the fresh id. */
  lemma UpsertAppendsNew<T>(records: seq<T>, idOf: T -> Option<string>, withId: (T, string) -> T,
                            edited: T, newId: string)
    requires idOf(edited).None?
    requires idOf(withId(edited, newId)) == Some(newId)
    ensures var r := Upsert(records, idOf, withId, edited, newId);
      && |r| == |records| + 1
      && r[..|records|] == records
      && idOf(r[|records|]) == Some(newId)
  {
    assert (records + [withId(edited, newId)])[..|records|] == records;
  }

  /** Saving the same edited record twice stores the same list as saving it once. */
  lemma UpsertUpdateIdempotent<T>(records: seq<T>, idOf: T -> Option<string>, withId: (T, string) -> T,
                                  edited: T, newId: string)
    requires idOf(edited).Some?
    ensures var once := Upsert(records, idOf, withId, edited, newId);
      Upsert(once, idOf, withId, edited, newId) == once
  {
    var once := Upsert(records, idOf, withId, edited, newId);
    var twice := Upsert(once, idOf, withId, edited, newId);
    assert forall i :: 0 <= i < |once| ==> twice[i] == once[i];
  }

  /**
   * `handleDelete`: a truthy `deletingId` removes the records carrying it
   * (`prev.filter(c => c.id !== deletingId)`); a null or empty id removes
   * nothing.
   */
  function DeleteById<T(==,!new)>(records: seq<T>, idOf: T -> Option<string>, deletingId: Option<string>): (r: seq<T>)
    ensures IsSubsequence(r, records)
    ensures deletingId.None? || deletingId == Some("") ==> r == records
    ensures deletingId.Some? && deletingId != Some("") ==>
      forall x :: x in r <==> x in records && idOf(x) != deletingId
    ensures deletingId.Some? && deletingId != Some("") ==>
      forall x {:trigger multiset(r)[x]} :: multiset(r)[x] == if idOf(x) != deletingId then multiset(records)[x] else 0
  {
    if deletingId.None? || deletingId == Some("") then
      assert IsSubsequence(records, records) by { SubsequenceReflexive(records); }
      records
    else Filter(records, x => idOf(x) != deletingId)
  }

  /** Deleting by the id a save has just handed out gives back the list before the save. */
  lemma DeleteUndoesInsert<T(!new)>(records: seq<T>, idOf: T -> Option<string>, withId: (T, string) -> T,
                                    edited: T, newId: string)
    requires idOf(edited).None?
    requires idOf(withId(edited, newId)) == Some(newId)
    requires newId != ""
    requires forall x :: x in records ==> idOf(x) != Some(newId)
    ensures DeleteById(Upsert(records, idOf, withId, edited, newId), idOf, Some(newId)) == records
  {
    var p := (x: T) => idOf(x) != Some(newId);
    FilterAppend(records, [withId(edited, newId)], p);
    FilterAll(records, p);
  }

  function CourseId(c: Course): Option<string> { c.id }
  function CourseWithId(c: Course, id: string): Course { c.(id := Some(id)) }
  function EnrollmentId(e: OpenEnrollment): Option<string> { e.id }
  function EnrollmentWithId(e: OpenEnrollment, id: string): OpenEnrollment { e.(id := Some(id)) }

  /** `ManageOpenEnrollments.handleSave`: update or insert, with no further check. */
  function SaveOpenEnrollment(records: seq<OpenEnrollment>, editing: OpenEnrollment, newId: string): (r: seq<OpenEnrollment>)
    ensures editing.id.Some? ==> |r| == |records|
    ensures editing.id.None? ==> r == records + [editing.(id := Some(newId))]
  {
    Upsert(records, EnrollmentId, EnrollmentWithId, editing, newId)
  }

  /** `ManageOpenEnrollments.handleDelete`. */
  function DeleteOpenEnrollment(records: seq<OpenEnrollment>, deletingId: Option<string>): (r: seq<OpenEnrollment>)
    ensures deletingId.None? || deletingId == Some("") ==> r == records
    ensures deletingId.Some? && deletingId != Some("") ==>
      forall e {:trigger multiset(r)[e]} :: multiset(r)[e] == if e.id != deletingId then multiset(records)[e] else 0
  {
    DeleteById(records, EnrollmentId, deletingId)
  }

  /** The outcome of `ManageOngoingCourses.handleSave`. */
  datatype SaveOutcome = Refused(conflict: Course) | Saved(courses: seq<Course>)

  /**
   * `ManageOngoingCourses.handleSave`: a course that `findScheduleConflict`
   * flags is refused and the list is not touched; otherwise update or insert.
   */
  function SaveOngoingCourse(courses: seq<Course>, editing: Course, newId: string): (r: SaveOutcome)
    ensures r.Refused? ==> r.conflict in courses && SameRoom(r.conflict.room, editing.room)
    ensures r.Saved? ==> |r.courses| == if editing.id.Some? then |courses| else |courses| + 1
  {
    var conflict := ScheduleConflict(editing, courses);
    if conflict.Some? then Refused(conflict.value)
    else Saved(Upsert(courses, CourseId, CourseWithId, editing, newId))
  }

  /** `ManageOngoingCourses.handleDelete`. */
  function DeleteOngoingCourse(courses: seq<Course>, deletingId: Option<string>): (r: seq<Course>)
    ensures deletingId.None? || deletingId == Some("") ==> r == courses
    ensures deletingId.Some? && deletingId != Some("") ==>
      forall c {:trigger multiset(r)[c]} :: multiset(r)[c] == if c.id != deletingId then multiset(courses)[c] else 0
  {
    DeleteById(courses, CourseId, deletingId)
  }

  // ---------------------------------------------------------------------
  // The conflict invariant of the ongoing-course list
  // ---------------------------------------------------------------------

  /**
   * Course `b` clashes with course `a` as the checker sees it when `a` is the
   * candidate: `b` is compared with `a`, uses the same room, and some
   * schedule of `a` clashes with some schedule of `b`.
   */
  predicate Collide(a: Course, b: Course) {
    && Compared(a, b)
    && SameRoom(b.room, a.room)
    && exists s, t :: s in a.schedules && t in b.schedules && SlotsClash(s, t)
  }

  /** No two courses of the list (with different ids) use one room at overlapping times. */
  predicate ConflictFree(courses: seq<Course>) {
    forall a, b :: a in courses && b in courses ==> !Collide(a, b)
  }

  /** Same room and schedules; the ids may differ. */
  predicate SameSlots(a: Course, b: Course) {
    a.room == b.room && a.schedules == b.schedules
  }

  /** The checker stays silent exactly when the candidate collides with no course of the list. */
  lemma NoConflictIffNoCollision(candidate: Course, courses: seq<Course>)
    ensures ScheduleConflict(candidate, courses).None? <==> forall b :: b in courses ==> !Collide(candidate, b)
  {
    NoConflictIffNoClash(candidate, courses);
    ConflictIsSound(candidate, courses);
  }

  lemma CollideSymmetric(a: Course, b: Course)
    ensures Collide(a, b) ==> Collide(b, a)
  {
    if Collide(a, b) {
      var s, t :| s in a.schedules && t in b.schedules && SlotsClash(s, t);
      TimesOverlapSymmetric(s.startTime, s.endTime, t.startTime, t.endTime);
      assert SlotsClash(t, s);
    }
  }

  /** Ids only decide whether two courses are compared: a candidate without id collides by its slots. */
  lemma CollisionFollowsSlots(a: Course, b: Course, a': Course, b': Course)
    requires SameSlots(a, a') && SameSlots(b, b')
    requires a.id.None?
    ensures Collide(a', b') ==> Collide(a, b)
  {
  }

  /** The list is conflict-free exactly when the checker reports nothing for any of its courses. */
  lemma ConflictFreeIffNoneReported(courses: seq<Course>)
    ensures ConflictFree(courses) <==> forall c :: c in courses ==> ScheduleConflict(c, courses).None?
  {
    forall c | c in courses {
      NoConflictIffNoCollision(c, courses);
    }
  }

  /** A refused save names a course of the list that the edited course collides with. */
  lemma SaveRefusedIffCollision(courses: seq<Course>, editing: Course, newId: string)
    ensures SaveOngoingCourse(courses, editing, newId).Refused? <==> exists b :: b in courses && Collide(editing, b)
    ensures SaveOngoingCourse(courses, editing, newId).Refused? ==>
      var b := SaveOngoingCourse(courses, editing, newId).conflict;
      b in courses && Collide(editing, b)
  {
    NoConflictIffNoCollision(editing, courses);
    ConflictIsSound(editing, courses);
  }

  /** A save that goes through keeps a conflict-free list conflict-free. */
  lemma SavePreservesConflictFreedom(courses: seq<Course>, editing: Course, newId: string)
    requires ConflictFree(courses)
    ensures SaveOngoingCourse(courses, editing, newId).Saved? ==>
      ConflictFree(SaveOngoingCourse(courses, editing, newId).courses)
  {
    var out := SaveOngoingCourse(courses, editing, newId);
    if out.Saved? {
      NoConflictIffNoCollision(editing, courses);
      var r := out.courses;
      if editing.id.Some? {
        UpsertReplacesById(courses, CourseId, CourseWithId, editing, newId);
        assert forall x :: x in r ==> x == editing || (x in courses && x.id != editing.id) by {
          forall x | x in r ensures x == editing || (x in courses && x.id != editing.id) {
            var i :| 0 <= i < |r| && r[i] == x;
          }
        }
        forall a, b | a in r && b in r
          ensures !Collide(a, b)
        {
          if a == editing && b != editing {
            assert b in courses;
          } else if b == editing && a != editing {
            CollideSymmetric(a, b);
          }
        }
      } else {
        var added := editing.(id := Some(newId));
        assert r == courses + [added];
        forall a, b | a in r && b in r
          ensures !Collide(a, b)
        {
          if a == added && b != added {
            CollisionFollowsSlots(editing, b, added, b);
          } else if b == added && a != added {
            CollideSymmetric(a, b);
            CollisionFollowsSlots(editing, a, added, a);
          }
        }
      }
    }
  }

  /** Deleting keeps a conflict-free list conflict-free. */
  lemma DeletePreservesConflictFreedom(courses: seq<Course>, deletingId: Option<string>)
    requires ConflictFree(courses)
    ensures ConflictFree(DeleteOngoingCourse(courses, deletingId))
  {
  }

  // ---------------------------------------------------------------------
  // Editing the schedules of the course in the form
  // ---------------------------------------------------------------------

  /** `blankSchedule`: Monday, 08:00 to 12:00. */
  const BlankSchedule := Schedule(1, "08:00", "12:00")

  /** `addSchedule`: a blank schedule at the end; no course in the form, nothing to do. */
  function AddScheduleTo(editing: Option<Course>): (r: Option<Course>)
    ensures r.Some? <==> editing.Some?
    ensures editing.Some? ==>
      && |r.value.schedules| == |editing.value.schedules| + 1
      && r.value.schedules[..|editing.value.schedules|] == editing.value.schedules
      && r.value.schedules[|editing.value.schedules|] == BlankSchedule
      && r.value == editing.value.(schedules := r.value.schedules)
  {
    if editing.None? then editing
    else Some(editing.value.(schedules := editing.value.schedules + [BlankSchedule]))
  }

  /** `xs.filter((_, i) => i !== index)`. */
  function WithoutIndex<T>(xs: seq<T>, index: int): (r: seq<T>)
    ensures |r| == if 0 <= index < |xs| then |xs| - 1 else |xs|
    decreases |xs|
  {
    if xs == [] then []
    else (if index == 0 then [] else [xs[0]]) + WithoutIndex(xs[1..], index - 1)
  }

  /** Filtering out a position removes that one element when it exists and nothing otherwise. */
  lemma {:induction false} WithoutIndexSpec<T>(xs: seq<T>, index: int)
    ensures 0 <= index < |xs| ==> WithoutIndex(xs, index) == xs[..index] + xs[index + 1..]
    ensures !(0 <= index < |xs|) ==> WithoutIndex(xs, index) == xs
  {
    if xs != [] {
      WithoutIndexSpec(xs[1..], index - 1);
      if index == 0 {
        assert xs[..0] + xs[1..] == xs[1..];
      } else if 0 < index < |xs| {
        assert xs[..index] == [xs[0]] + xs[1..][..index - 1];
        assert xs[index + 1..] == xs[1..][index..];
      } else {
        assert xs == [xs[0]] + xs[1..];
      }
    }
  }

  /**
   * `removeSchedule(index)`: the new form state and whether the refusal
   * toast is shown. A course with one schedule or fewer, or no course, is
   * left as it is.
   */
  function RemoveScheduleFrom(editing: Option<Course>, index: int): (r: (Option<Course>, bool))
    ensures r.1 ==> r.0 == editing
    ensures !r.1 ==> editing.Some? && r.0.Some? && |r.0.value.schedules| >= 1 && r.0.value == editing.value.(schedules := r.0.value.schedules)
  {
    if editing.None? || |editing.value.schedules| <= 1 then (editing, true)
    else (Some(editing.value.(schedules := WithoutIndex(editing.value.schedules, index))), false)
  }

  /**
   * Removing refuses exactly when there is at most one schedule; otherwise
   * only position `index` goes, so a course never drops to zero schedules.
   */
  lemma RemoveScheduleKeepsOne(editing: Option<Course>, index: int)
    ensures var (r, refused) := RemoveScheduleFrom(editing, index);
      && (refused <==> editing.None? || |editing.value.schedules| <= 1)
      && (refused ==> r == editing)
      && (!refused ==> r.Some? && |r.value.schedules| >= 1
                       && r.value == editing.value.(schedules := r.value.schedules))
      && (!refused && 0 <= index < |editing.value.schedules| ==>
            r.value.schedules == editing.value.schedules[..index] + editing.value.schedules[index + 1..])
      && (!refused && !(0 <= index < |editing.value.schedules|) ==> r == editing)
  {
    if editing.Some? {
      WithoutIndexSpec(editing.value.schedules, index);
    }
  }

  /** Removing the schedule just added gives back the course as it was. */
  lemma RemoveUndoesAdd(editing: Option<Course>)
    requires editing.Some? && |editing.value.schedules| >= 1
    ensures RemoveScheduleFrom(AddScheduleTo(editing), |editing.value.schedules|) == (editing, false)
  {
    var s := editing.value.schedules;
    WithoutIndexSpec(s + [BlankSchedule], |s|);
    assert (s + [BlankSchedule])[..|s|] + (s + [BlankSchedule])[|s| + 1..] == s;
  }

  // ---------------------------------------------------------------------
  // Search
  // ---------------------------------------------------------------------

  predicate MatchesCourseSearch(c: Course, term: string) {
    Contains(ToLower(c.courseName), ToLower(term)) || Contains(ToLower(c.room), ToLower(term))
  }

  /** `filteredCourses` of the ongoing-course panel: name or room, ignoring case. */
  function FilteredCourses(courses: seq<Course>, term: string): (r: seq<Course>)
    ensures IsSubsequence(r, courses)
    ensures forall c :: c in r <==> c in courses && MatchesCourseSearch(c, term)
    ensures forall c {:trigger multiset(r)[c]} :: multiset(r)[c] == if MatchesCourseSearch(c, term) then multiset(courses)[c] else 0
  {
    Filter(courses, c => MatchesCourseSearch(c, term))
  }

  predicate MatchesEnrollmentSearch(e: OpenEnrollment, term: string) {
    Contains(ToLower(e.name), ToLower(term))
  }

  /** `filteredCourses` of the open-enrollment panel: the name, ignoring case. */
  function FilteredEnrollments(records: seq<OpenEnrollment>, term: string): (r: seq<OpenEnrollment>)
    ensures IsSubsequence(r, records)
    ensures forall e :: e in r <==> e in records && MatchesEnrollmentSearch(e, term)
    ensures forall e {:trigger multiset(r)[e]} :: multiset(r)[e] == if MatchesEnrollmentSearch(e, term) then multiset(records)[e] else 0
  {
    Filter(records, e => MatchesEnrollmentSearch(e, term))
  }

  lemma {:induction false} FilterCongruent<T(!new)>(xs: seq<T>, p: T -> bool, q: T -> bool)
    requires forall x :: x in xs ==> p(x) == q(x)
    ensures Filter(xs, p) == Filter(xs, q)
  {
    if xs != [] {
      assert forall x :: x in xs[1..] ==> x in xs;
      FilterCongruent(xs[1..], p, q);
    }
  }

  /** An empty search term shows every course; the case of the term does not matter. */
  lemma CourseSearchProperties(courses: seq<Course>, term: string)
    ensures FilteredCourses(courses, "") == courses
    ensures FilteredCourses(courses, ToLower(term)) == FilteredCourses(courses, term)
  {
    FilterAll(courses, c => MatchesCourseSearch(c, ""));
    ToLowerIdempotent(term);
    FilterCongruent(courses, c => MatchesCourseSearch(c, ToLower(term)), c => MatchesCourseSearch(c, term));
  }

  /** The same two facts for the open-enrollment search. */
  lemma EnrollmentSearchProperties(records: seq<OpenEnrollment>, term: string)
    ensures FilteredEnrollments(records, "") == records
    ensures FilteredEnrollments(records, ToLower(term)) == FilteredEnrollments(records, term)
  {
    FilterAll(records, e => MatchesEnrollmentSearch(e, ""));
    ToLowerIdempotent(term);
    FilterCongruent(records, e => MatchesEnrollmentSearch(e, ToLower(term)), e => MatchesEnrollmentSearch(e, term));
  }

  // ---------------------------------------------------------------------
  // Batch CSV import
  // ---------------------------------------------------------------------

  /** A parsed course refused by the batch check, and the course it clashed with. */
  datatype ImportConflict = ImportConflict(course: Course, clash: Course)

  /** The toast shown for one refused course. */
  function ConflictMessage(c: ImportConflict): string {
    "Conflito detectado: " + c.course.courseName + " (" + c.course.room + ") colide com "
      + c.clash.courseName + " (" + c.clash.room + ")."
  }

  /** `conflicts` and `tempCombinedCourses` of the batch loop. */
  datatype Scan = Scan(conflicts: seq<ImportConflict>, combined: seq<Course>)

  /** The first `n` courses of `courses`, each given the id `ids(i)` of its position. */
  function WithIds(courses: seq<Course>, ids: nat -> string, n: nat): (r: seq<Course>)
    requires n <= |courses|
    ensures |r| == n
  {
    seq(n, i requires 0 <= i < n => courses[i].(id := Some(ids(i))))
  }

  /**
   * The conflict check the batch loop applies to each parsed course; the
   * import uses `ScheduleConflict`. Keeping it a parameter lets the facts
   * about the loop's bookkeeping be stated for any check.
   */
  type ConflictCheck = (Course, seq<Course>) -> Option<Course>

  /**
   * One course of the batch loop: checked against the courses accepted so
   * far; a clash adds a conflict, otherwise the course joins them under the
   * temporary id `id`.
   */
  function ScanStep(check: ConflictCheck, scan: Scan, newCourse: Course, id: string): Scan {
    var conflict := check(newCourse, scan.combined);
    if conflict.Some? then Scan(scan.conflicts + [ImportConflict(newCourse, conflict.value)], scan.combined)
    else Scan(scan.conflicts, scan.combined + [newCourse.(id := Some(id))])
  }

  /**
   * The batch loop after `n` parsed courses: each one is checked against the
   * existing courses plus the parsed courses accepted before it.
   */
  function ScanImport(check: ConflictCheck, parsed: seq<Course>, existing: seq<Course>, tempId: nat -> string, n: nat): Scan
    requires n <= |parsed|
  {
    if n == 0 then Scan([], existing)
    else ScanStep(check, ScanImport(check, parsed, existing, tempId, n - 1), parsed[n - 1], tempId(n - 1))
  }

  datatype ImportOutcome =
    | ParseFailed(errors: seq<CsvParser.CsvError>)
    | Aborted(conflicts: seq<ImportConflict>)
    | Imported(added: seq<Course>)

  /**
   * `handleFileImport` on the file's text: the outcome and the course list
   * stored afterwards. Parse errors and conflicts abort; otherwise every
   * parsed course is appended with the fresh id of its position.
   */
  function ImportCsv(text: string, courses: seq<Course>, tempId: nat -> string, newIds: nat -> string)
    : (r: (seq<Course>, ImportOutcome))
    ensures var (updated, outcome) := r;
      var parsed := CsvParser.ParseCsv(text);
      && (outcome.ParseFailed? <==> parsed.errors != [])
      && (!outcome.Imported? ==> updated == courses)
      && (outcome.Imported? ==>
            && |outcome.added| == |parsed.courses|
            && updated == courses + outcome.added
            && forall i :: 0 <= i < |parsed.courses| ==>
                 outcome.added[i] == parsed.courses[i].(id := Some(newIds(i))))
  {
    ImportParsed(CsvParser.ParseCsv(text), courses, tempId, newIds)
  }

  /** The import once the file has been parsed. */
  function ImportParsed(parsed: CsvParser.ParseResult, courses: seq<Course>, tempId: nat -> string, newIds: nat -> string)
    : (seq<Course>, ImportOutcome)
  {
    if |parsed.errors| > 0 then (courses, ParseFailed(parsed.errors))
    else
      var scan := ScanImport(ScheduleConflict, parsed.courses, courses, tempId, |parsed.courses|);
      if |scan.conflicts| > 0 then (courses, Aborted(scan.conflicts))
      else
        var added := WithIds(parsed.courses, newIds, |parsed.courses|);
        (courses + added, Imported(added))
  }

  /** One more course of the batch loop, given the conflict found for it. */
  lemma ScanImportNext(check: ConflictCheck, parsed: seq<Course>, existing: seq<Course>, tempId: nat -> string, n: nat,
                       conflicts: seq<ImportConflict>, combined: seq<Course>, conflict: Option<Course>)
    requires n < |parsed|
    requires ScanImport(check, parsed, existing, tempId, n) == Scan(conflicts, combined)
    requires conflict == check(parsed[n], combined)
    ensures ScanImport(check, parsed, existing, tempId, n + 1) ==
      if conflict.Some? then Scan(conflicts + [ImportConflict(parsed[n], conflict.value)], combined)
      else Scan(conflicts, combined + [parsed[n].(id := Some(tempId(n)))])
  {
  }

  /** One iteration of the batch loop: parsed course `i` is checked and either recorded as a conflict or accepted. */
  method ScanCourse(parsedCourses: seq<Course>, ongoingCourses: seq<Course>, tempId: nat -> string, i: nat,
                    conflicts: seq<ImportConflict>, tempCombinedCourses: seq<Course>)
    returns (conflicts': seq<ImportConflict>, tempCombinedCourses': seq<Course>)
    requires i < |parsedCourses|
    requires ScanImport(ScheduleConflict, parsedCourses, ongoingCourses, tempId, i) == Scan(conflicts, tempCombinedCourses)
    ensures ScanImport(ScheduleConflict, parsedCourses, ongoingCourses, tempId, i + 1) == Scan(conflicts', tempCombinedCourses')
  {
    var newCourse := parsedCourses[i];
    var conflict := FindScheduleConflict(newCourse, tempCombinedCourses);
    ScanImportNext(ScheduleConflict, parsedCourses, ongoingCourses, tempId, i, conflicts, tempCombinedCourses, conflict);
    conflicts', tempCombinedCourses' := conflicts, tempCombinedCourses;
    if conflict.Some? {
      conflicts' := conflicts + [ImportConflict(newCourse, conflict.value)];
    } else {
      tempCombinedCourses' := tempCombinedCourses + [newCourse.(id := Some(tempId(i)))];
    }
  }

  /**
   * The batch loop of `handleFileImport`: checks each parsed course against
   * the existing courses and the parsed courses accepted before it.
   */
  method ScanBatch(parsedCourses: seq<Course>, ongoingCourses: seq<Course>, tempId: nat -> string)
    returns (conflicts: seq<ImportConflict>, tempCombinedCourses: seq<Course>)
    ensures Scan(conflicts, tempCombinedCourses) == ScanImport(ScheduleConflict, parsedCourses, ongoingCourses, tempId, |parsedCourses|)
  {
    conflicts := [];
    tempCombinedCourses := ongoingCourses;
    var i := 0;
    while i < |parsedCourses|
      invariant 0 <= i <= |parsedCourses|
      invariant ScanImport(ScheduleConflict, parsedCourses, ongoingCourses, tempId, i) == Scan(conflicts, tempCombinedCourses)
    {
      conflicts, tempCombinedCourses := ScanCourse(parsedCourses, ongoingCourses, tempId, i, conflicts, tempCombinedCourses);
      i := i + 1;
    }
  }

  /** `handleFileImport`: parse, check the whole batch, then add all or nothing. */
  method HandleFileImport(text: string, ongoingCourses: seq<Course>, tempId: nat -> string, newIds: nat -> string)
    returns (updated: seq<Course>, outcome: ImportOutcome)
    ensures (updated, outcome) == ImportCsv(text, ongoingCourses, tempId, newIds)
  {
    var parsed := CsvParser.ParseCoursesFromCsv(text);
    if |parsed.errors| > 0 {
      return ongoingCourses, ParseFailed(parsed.errors);
    }
    var conflicts, _ := ScanBatch(parsed.courses, ongoingCourses, tempId);
    if |conflicts| > 0 {
      return ongoingCourses, Aborted(conflicts);
    }
    var coursesToAdd := WithIds(parsed.courses, newIds, |parsed.courses|);
    return ongoingCourses + coursesToAdd, Imported(coursesToAdd);
  }

  /**
   * Every parsed course checked either adds one conflict or joins the set,
   * which only grows from the existing courses.
   */
  lemma {:induction false} ScanAccountsForEveryCourse(check: ConflictCheck, parsed: seq<Course>, existing: seq<Course>, tempId: nat -> string, n: nat)
    requires n <= |parsed|
    ensures var scan := ScanImport(check, parsed, existing, tempId, n);
      && |scan.conflicts| + |scan.combined| == |existing| + n
      && |existing| <= |scan.combined|
      && scan.combined[..|existing|] == existing
  {
    if n == 0 {
      assert existing[..|existing|] == existing;
    } else {
      ScanAccountsForEveryCourse(check, parsed, existing, tempId, n - 1);
      var scan := ScanImport(check, parsed, existing, tempId, n - 1);
      var newCourse := parsed[n - 1];
      ScanImportNext(check, parsed, existing, tempId, n - 1, scan.conflicts, scan.combined, check(newCourse, scan.combined));
      if check(newCourse, scan.combined).None? {
        var added := newCourse.(id := Some(tempId(n - 1)));
        assert (scan.combined + [added])[..|existing|] == scan.combined[..|existing|];
      }
    }
  }

  /** Each conflict names a course of `courses` and a course of `combined` that it collides with. */
  predicate ConflictsExplained(conflicts: seq<ImportConflict>, courses: seq<Course>, combined: seq<Course>) {
    forall k :: 0 <= k < |conflicts| ==>
      && conflicts[k].course in courses
      && conflicts[k].clash in combined
      && Collide(conflicts[k].course, conflicts[k].clash)
  }

  /** A check that reports only a course of the list that really collides with the candidate. */
  ghost predicate SoundCheck(check: ConflictCheck) {
    forall c, xs :: check(c, xs).Some? ==> check(c, xs).value in xs && Collide(c, check(c, xs).value)
  }

  /** `findScheduleConflict` is such a check. */
  lemma ScheduleConflictIsSound()
    ensures SoundCheck(ScheduleConflict)
  {
    forall c, xs | ScheduleConflict(c, xs).Some?
      ensures ScheduleConflict(c, xs).value in xs && Collide(c, ScheduleConflict(c, xs).value)
    {
      ConflictIsSound(c, xs);
    }
  }

  /**
   * With a sound check, each conflict names one of the parsed courses
   * checked so far and a course of the set that it really collides with.
   */
  lemma {:induction false} ScanConflictsAreCollisions(check: ConflictCheck, parsed: seq<Course>, existing: seq<Course>, tempId: nat -> string, n: nat)
    requires SoundCheck(check)
    requires n <= |parsed|
    ensures var scan := ScanImport(check, parsed, existing, tempId, n);
      ConflictsExplained(scan.conflicts, parsed[..n], scan.combined)
  {
    if n > 0 {
      ScanConflictsAreCollisions(check, parsed, existing, tempId, n - 1);
      var scan := ScanImport(check, parsed, existing, tempId, n - 1);
      assert ConflictsExplained(scan.conflicts, parsed[..n - 1], scan.combined);
      var newCourse := parsed[n - 1];
      assert parsed[..n] == parsed[..n - 1] + [newCourse];
      assert forall c :: c in parsed[..n - 1] ==> c in parsed[..n];
      var conflict := check(newCourse, scan.combined);
      ScanImportNext(check, parsed, existing, tempId, n - 1, scan.conflicts, scan.combined, conflict);
      if conflict.Some? {
        var conflicts := scan.conflicts + [ImportConflict(newCourse, conflict.value)];
        forall k | 0 <= k < |conflicts|
          ensures conflicts[k].course in parsed[..n] && conflicts[k].clash in scan.combined
                  && Collide(conflicts[k].course, conflicts[k].clash)
        {
          if k < |scan.conflicts| {
            assert conflicts[k] == scan.conflicts[k];
          }
        }
        assert ConflictsExplained(conflicts, parsed[..n], scan.combined);
      } else {
        var combined := scan.combined + [newCourse.(id := Some(tempId(n - 1)))];
        assert forall c :: c in scan.combined ==> c in combined;
        assert ConflictsExplained(scan.conflicts, parsed[..n], combined);
      }
    }
  }

  /**
   * When the loop found no conflict, the set is the existing courses plus
   * every parsed course under its temporary id.
   */
  lemma {:induction false} CleanScan(check: ConflictCheck, parsed: seq<Course>, existing: seq<Course>, tempId: nat -> string, n: nat)
    requires n <= |parsed|
    requires ScanImport(check, parsed, existing, tempId, n).conflicts == []
    ensures ScanImport(check, parsed, existing, tempId, n).combined == existing + WithIds(parsed, tempId, n)
  {
    if n > 0 {
      var scan := ScanImport(check, parsed, existing, tempId, n - 1);
      var conflict := check(parsed[n - 1], scan.combined);
      ScanImportNext(check, parsed, existing, tempId, n - 1, scan.conflicts, scan.combined, conflict);
      assert conflict.None?;
      CleanScan(check, parsed, existing, tempId, n - 1);
      assert WithIds(parsed, tempId, n) == WithIds(parsed, tempId, n - 1) + [parsed[n - 1].(id := Some(tempId(n - 1)))];
    }
  }

  /**
   * When the loop found no conflict, parsed course `j` was checked against
   * the existing courses plus the parsed courses before it, and passed.
   */
  lemma {:induction false} CleanScanChecked(check: ConflictCheck, parsed: seq<Course>, existing: seq<Course>, tempId: nat -> string, n: nat, j: nat)
    requires j < n <= |parsed|
    requires ScanImport(check, parsed, existing, tempId, n).conflicts == []
    ensures check(parsed[j], existing + WithIds(parsed, tempId, j)).None?
  {
    var scan := ScanImport(check, parsed, existing, tempId, n - 1);
    var conflict := check(parsed[n - 1], scan.combined);
    ScanImportNext(check, parsed, existing, tempId, n - 1, scan.conflicts, scan.combined, conflict);
    assert conflict.None?;
    if j == n - 1 {
      CleanScan(check, parsed, existing, tempId, n - 1);
    } else {
      CleanScanChecked(check, parsed, existing, tempId, n - 1, j);
    }
  }

  /** A parsed course that passed its check collides with no existing course once it has its final id. */
  lemma AcceptedVsExisting(existing: seq<Course>, parsed: seq<Course>, tempId: nat -> string, newIds: nat -> string, j: nat, b: Course)
    requires j < |parsed| && parsed[j].id.None?
    requires ScheduleConflict(parsed[j], existing + WithIds(parsed, tempId, j)).None?
    requires b in existing
    ensures !Collide(WithIds(parsed, newIds, |parsed|)[j], b)
  {
    var before := existing + WithIds(parsed, tempId, j);
    NoConflictIffNoCollision(parsed[j], before);
    assert b in before;
    CollisionFollowsSlots(parsed[j], b, WithIds(parsed, newIds, |parsed|)[j], b);
  }

  /** A parsed course that passed its check collides with no parsed course before it, under the final ids. */
  lemma AcceptedVsEarlier(existing: seq<Course>, parsed: seq<Course>, tempId: nat -> string, newIds: nat -> string, j: nat, k: nat)
    requires k < j < |parsed| && parsed[j].id.None?
    requires ScheduleConflict(parsed[j], existing + WithIds(parsed, tempId, j)).None?
    ensures !Collide(WithIds(parsed, newIds, |parsed|)[j], WithIds(parsed, newIds, |parsed|)[k])
  {
    var added := WithIds(parsed, newIds, |parsed|);
    var before := existing + WithIds(parsed, tempId, j);
    NoConflictIffNoCollision(parsed[j], before);
    var temp := parsed[k].(id := Some(tempId(k)));
    assert before[|existing| + k] == temp;
    CollisionFollowsSlots(parsed[j], temp, added[j], added[k]);
  }

  /**
   * Parsed course `j`, stored under its final id, collides with no course
   * of the stored list: not with an existing one, nor with another parsed
   * one, whichever of the two was checked first.
   */
  lemma AcceptedDoesNotCollide(existing: seq<Course>, parsed: seq<Course>, tempId: nat -> string, newIds: nat -> string, j: nat, b: Course)
    requires forall j :: 0 <= j < |parsed| ==> parsed[j].id.None?
    requires forall j :: 0 <= j < |parsed| ==> ScheduleConflict(parsed[j], existing + WithIds(parsed, tempId, j)).None?
    requires j < |parsed| && b in existing + WithIds(parsed, newIds, |parsed|)
    ensures !Collide(WithIds(parsed, newIds, |parsed|)[j], b)
  {
    if b in existing {
      AcceptedVsExisting(existing, parsed, tempId, newIds, j, b);
    } else {
      AcceptedVsAdded(existing, parsed, tempId, newIds, j, b);
    }
  }

  /** The case of `AcceptedDoesNotCollide` where `b` is one of the parsed courses. */
  lemma AcceptedVsAdded(existing: seq<Course>, parsed: seq<Course>, tempId: nat -> string, newIds: nat -> string, j: nat, b: Course)
    requires forall j :: 0 <= j < |parsed| ==> parsed[j].id.None?
    requires forall j :: 0 <= j < |parsed| ==> ScheduleConflict(parsed[j], existing + WithIds(parsed, tempId, j)).None?
    requires j < |parsed| && b in WithIds(parsed, newIds, |parsed|)
    ensures !Collide(WithIds(parsed, newIds, |parsed|)[j], b)
  {
    var added := WithIds(parsed, newIds, |parsed|);
    var k :| 0 <= k < |added| && added[k] == b;
    if k < j {
      AcceptedVsEarlier(existing, parsed, tempId, newIds, j, k);
    } else if k > j {
      AcceptedVsEarlier(existing, parsed, tempId, newIds, k, j);
      CollideSymmetric(added[j], b);
    }
  }

  /**
   * The courses the batch check accepted stay conflict-free once they are
   * stored under their final ids, together with a conflict-free list.
   */
  lemma BatchConflictFree(existing: seq<Course>, parsed: seq<Course>, tempId: nat -> string, newIds: nat -> string)
    requires ConflictFree(existing)
    requires forall j :: 0 <= j < |parsed| ==> parsed[j].id.None?
    requires forall j :: 0 <= j < |parsed| ==> ScheduleConflict(parsed[j], existing + WithIds(parsed, tempId, j)).None?
    ensures ConflictFree(existing + WithIds(parsed, newIds, |parsed|))
  {
    var added := WithIds(parsed, newIds, |parsed|);
    var all := existing + added;
    forall a, b | a in all && b in all
      ensures !Collide(a, b)
    {
      if a !in existing {
        var j :| 0 <= j < |added| && added[j] == a;
        AcceptedDoesNotCollide(existing, parsed, tempId, newIds, j, b);
      } else if b !in existing {
        var j :| 0 <= j < |added| && added[j] == b;
        AcceptedDoesNotCollide(existing, parsed, tempId, newIds, j, a);
        CollideSymmetric(a, b);
      }
    }
  }

  /** A successful import keeps a conflict-free course list conflict-free. */
  lemma ImportPreservesConflictFreedom(text: string, courses: seq<Course>, tempId: nat -> string, newIds: nat -> string)
    requires ConflictFree(courses)
    ensures ImportCsv(text, courses, tempId, newIds).1.Imported? ==> ConflictFree(ImportCsv(text, courses, tempId, newIds).0)
  {
    var parsed := CsvParser.ParseCsv(text);
    if ImportCsv(text, courses, tempId, newIds).1.Imported? {
      CsvParser.ParseSuccessShape(text);
      forall j | 0 <= j < |parsed.courses|
        ensures ScheduleConflict(parsed.courses[j], courses + WithIds(parsed.courses, tempId, j)).None?
      {
        CleanScanChecked(ScheduleConflict, parsed.courses, courses, tempId, |parsed.courses|, j);
      }
      BatchConflictFree(courses, parsed.courses, tempId, newIds);
    }
  }

  // ---------------------------------------------------------------------
  // CSV export
  // ---------------------------------------------------------------------

  const ExportHeaders: seq<string> := ["room", "courseName", "block", "dayOfWeek", "startTime", "endTime"]

  /** The six values of the row for one (course, schedule) pair; `String(dayOfWeek)`. */
  function ExportValues(c: Course, s: Schedule): seq<string> {
    [c.room, c.courseName, c.block, IntToString(s.dayOfWeek), s.startTime, s.endTime]
  }

  function ExportRow(c: Course, s: Schedule): string {
    Join(CsvQuoting.QuoteAll(ExportValues(c, s)), ",")
  }

  /** How one (course, schedule) pair becomes a row; the export uses `ExportRow`. */
  type RowOf = (Course, Schedule) -> string

  /** The rows of the first `n` schedules of course `c`. */
  function ScheduleRows(rowOf: RowOf, c: Course, n: nat): (rows: seq<string>)
    requires n <= |c.schedules|
    ensures |rows| == n
  {
    if n == 0 then [] else ScheduleRows(rowOf, c, n - 1) + [rowOf(c, c.schedules[n - 1])]
  }

  /** Row `j` of a course's rows is the row of its schedule `j`. */
  lemma {:induction false} ScheduleRowAt(rowOf: RowOf, c: Course, n: nat, j: nat)
    requires j < n <= |c.schedules|
    ensures ScheduleRows(rowOf, c, n)[j] == rowOf(c, c.schedules[j])
  {
    if j < n - 1 {
      ScheduleRowAt(rowOf, c, n - 1, j);
    }
  }

  /** The rows of the first `n` courses, course by course. */
  function CourseRows(rowOf: RowOf, courses: seq<Course>, n: nat): seq<string>
    requires n <= |courses|
  {
    if n == 0 then [] else CourseRows(rowOf, courses, n - 1) + ScheduleRows(rowOf, courses[n - 1], |courses[n - 1].schedules|)
  }

  /** `csvRows` of `handleExport`; an empty list gives the error toast and no rows. */
  function ExportCsv(courses: seq<Course>): (rows: Option<seq<string>>)
    ensures rows.None? <==> courses == []
    ensures rows.Some? ==> |rows.value| >= 1 && rows.value[0] == Join(ExportHeaders, ",")
  {
    if |courses| == 0 then None
    else Some([Join(ExportHeaders, ",")] + CourseRows(ExportRow, courses, |courses|))
  }

  /** The inner `forEach` of `handleExport`: one row per schedule of `course`, appended in order. */
  method PushScheduleRows(rows: seq<string>, course: Course) returns (pushed: seq<string>)
    ensures pushed == rows + ScheduleRows(ExportRow, course, |course.schedules|)
  {
    pushed := rows;
    var j := 0;
    while j < |course.schedules|
      invariant 0 <= j <= |course.schedules|
      invariant pushed == rows + ScheduleRows(ExportRow, course, j)
    {
      var schedule := course.schedules[j];
      var values := ExportValues(course, schedule);
      var row := Join(CsvQuoting.QuoteAll(values), ",");
      assert rows + ScheduleRows(ExportRow, course, j + 1) == rows + ScheduleRows(ExportRow, course, j) + [row];
      pushed := pushed + [row];
      j := j + 1;
    }
  }

  /** The outer `forEach` of `handleExport`: the rows of every course, in list order. */
  method PushCourseRows(rows: seq<string>, courses: seq<Course>) returns (pushed: seq<string>)
    ensures pushed == rows + CourseRows(ExportRow, courses, |courses|)
  {
    pushed := rows;
    var i := 0;
    while i < |courses|
      invariant 0 <= i <= |courses|
      invariant pushed == rows + CourseRows(ExportRow, courses, i)
    {
      var course := courses[i];
      pushed := PushScheduleRows(pushed, course);
      assert rows + CourseRows(ExportRow, courses, i + 1)
          == rows + CourseRows(ExportRow, courses, i) + ScheduleRows(ExportRow, course, |course.schedules|);
      i := i + 1;
    }
  }

  /** `handleExport`: the header row, then the two nested `forEach` loops. */
  method HandleExport(ongoingCourses: seq<Course>) returns (csvRows: Option<seq<string>>)
    ensures csvRows == ExportCsv(ongoingCourses)
  {
    if |ongoingCourses| == 0 {
      return None;
    }
    var rows := PushCourseRows([Join(ExportHeaders, ",")], ongoingCourses);
    return Some(rows);
  }

  /** Adding one course's schedules to a prefix of the list. */
  lemma PrefixSchedules(courses: seq<Course>, i: nat)
    requires i < |courses|
    ensures CsvParser.TotalSchedules(courses[..i + 1]) == CsvParser.TotalSchedules(courses[..i]) + |courses[i].schedules|
  {
    assert courses[..i + 1] == courses[..i] + [courses[i]];
    CsvParser.TotalSchedulesAppend(courses[..i], courses[i]);
  }

  lemma {:induction false} CourseRowsLength(rowOf: RowOf, courses: seq<Course>, n: nat)
    requires n <= |courses|
    ensures |CourseRows(rowOf, courses, n)| == CsvParser.TotalSchedules(courses[..n])
  {
    if n > 0 {
      CourseRowsLength(rowOf, courses, n - 1);
      PrefixSchedules(courses, n - 1);
    }
  }

  /**
   * One row per (course, schedule) pair, in list order: the row of schedule
   * `j` of course `i` comes after the rows of every schedule of the courses
   * before `i` and of the schedules before `j`.
   */
  lemma {:induction false} CourseRowAt(rowOf: RowOf, courses: seq<Course>, n: nat, i: nat, j: nat)
    requires i < n <= |courses| && j < |courses[i].schedules|
    ensures CsvParser.TotalSchedules(courses[..i]) + j < |CourseRows(rowOf, courses, n)|
    ensures CourseRows(rowOf, courses, n)[CsvParser.TotalSchedules(courses[..i]) + j] == rowOf(courses[i], courses[i].schedules[j])
  {
    CourseRowsLength(rowOf, courses, n - 1);
    PrefixSchedules(courses, n - 1);
    if i < n - 1 {
      CourseRowAt(rowOf, courses, n - 1, i, j);
    } else {
      ScheduleRowAt(rowOf, courses[i], |courses[i].schedules|, j);
    }
  }

  /** The export: no rows for an empty list; otherwise the header row and one row per schedule. */
  lemma ExportShape(courses: seq<Course>)
    ensures ExportCsv(courses).None? <==> courses == []
    ensures ExportCsv(courses).Some? ==>
      && |ExportCsv(courses).value| == 1 + CsvParser.TotalSchedules(courses)
      && CsvQuoting.ReadRecord(ExportCsv(courses).value[0]) == ExportHeaders
  {
    if courses != [] {
      CourseRowsLength(ExportRow, courses, |courses|);
      assert courses[..|courses|] == courses;
      ExportHeaderReadsBack();
    }
  }

  /**
   * The data rows, in list order: the row of schedule `j` of course `i`
   * follows the header, the rows of every schedule of the courses before
   * `i`, and the rows of the schedules before `j`.
   */
  lemma ExportRowsInListOrder(courses: seq<Course>, i: nat, j: nat)
    requires i < |courses| && j < |courses[i].schedules|
    ensures ExportCsv(courses).Some?
    ensures 1 + CsvParser.TotalSchedules(courses[..i]) + j < |ExportCsv(courses).value|
    ensures ExportCsv(courses).value[1 + CsvParser.TotalSchedules(courses[..i]) + j]
            == ExportRow(courses[i], courses[i].schedules[j])
  {
    CourseRowAt(ExportRow, courses, |courses|, i, j);
  }

  /** The header row reads back as the six column names. */
  lemma ExportHeaderReadsBack()
    ensures CsvQuoting.ReadRecord(Join(ExportHeaders, ",")) == ExportHeaders
  {
    assert CsvQuoting.QuoteAll(ExportHeaders) == ExportHeaders by {
      forall i | 0 <= i < |ExportHeaders|
        ensures !CsvQuoting.NeedsQuotes(ExportHeaders[i])
      {
      }
    }
    CsvQuoting.ReadRecordOfQuotedRow(ExportHeaders);
  }

  /** Every exported data row reads back, with `ReadRecord`, to its six values. */
  lemma ExportRowReadsBack(c: Course, s: Schedule)
    ensures CsvQuoting.ReadRecord(ExportRow(c, s)) == ExportValues(c, s)
  {
    CsvQuoting.ReadRecordOfQuotedRow(ExportValues(c, s));
  }
}
