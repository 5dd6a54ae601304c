/**
 * The persisted-state layer (services/dataService.ts): the sanitiser that
 * turns a stored JSON blob into canonical `AppData`, the field-wise merge of
 * `saveData`, the shape check of `importBackup`, and the fallback of
 * `loadUsers`.
 *
 * The browser store is not modelled: the stored blob is an input (`None`
 * when nothing is stored or the text is not JSON) and a saved blob is an
 * output. The clock is the parameter `now`; the fresh-id supply is a
 * function `newIds` from a collection name and a position in the kept
 * elements to an id.
 */
module DataService {
  import opened Wrappers
  import opened JsValue
  import opened Text
  import opened Seqs
  import opened Types
  import opened Constants

  type IdSupply = (string, nat) -> string

  /** `loadData`'s `defaultData`. */
  function DefaultData(now: int): AppData {
    AppData(OpenEnrollmentsCourses, OngoingCoursesData, NewsItemsData, DefaultVideoUrls, DefaultSettings, now)
  }

  /** `c && typeof c === 'object'`: the elements a collection keeps (arrays included). */
  predicate IsRecord(v: Value) {
    Truthy(v) && IsObjectLike(v)
  }

  /** The elements of `items` the collection filter keeps, in order, each as often as it occurs. */
  function Records(items: seq<Value>): (r: seq<Value>)
    ensures forall x :: x in r <==> x in items && IsRecord(x)
    ensures forall x {:trigger multiset(r)[x]} :: multiset(r)[x] == if IsRecord(x) then multiset(items)[x] else 0
    ensures IsSubsequence(r, items)
  {
    Filter(items, IsRecord)
  }

  /** `String(v || d)`. */
  function StrOr(v: Value, d: string): string {
    ToStr(Or(v, Str(d)))
  }

  // ---------------------------------------------------------------------
  // Records
  // ---------------------------------------------------------------------

  function VacanciesName(v: Vacancies): string {
    match v
    case Available => "available"
    case Few => "few"
    case Filled => "filled"
  }

  /** `['available', 'few', 'filled'].includes(v) ? v : 'available'`. */
  function VacanciesOf(v: Value): (r: Vacancies)
    ensures v.Str? && v.s in ["available", "few", "filled"] ==> VacanciesName(r) == v.s
    ensures !(v.Str? && v.s in ["available", "few", "filled"]) ==> r == Available
  {
    if v == Str("few") then Few else if v == Str("filled") then Filled else Available
  }

  /** One element of `openEnrollments`, sanitised; `newId` is the id `crypto.randomUUID` would give. */
  function ToOpenEnrollment(c: Value, newId: string): OpenEnrollment {
    OpenEnrollment(
      Some(StrOr(Get(c, "id"), newId)),
      StrOr(Get(c, "name"), "Curso"),
      NumberOf(Or(Get(c, "workload"), Num(0))),
      StrOr(Get(c, "startDate"), ""),
      StrOr(Get(c, "endDate"), ""),
      StrOr(Get(c, "schedule"), ""),
      StrOr(Get(c, "enrollmentUrl"), ""),
      VacanciesOf(Get(c, "vacancies")))
  }

  /** One element of a course's `schedules`, sanitised. */
  function ToSchedule(s: Value): Schedule {
    Schedule(NumberOf(Nullish(Get(s, "dayOfWeek"), Num(1))),
             StrOr(Get(s, "startTime"), "00:00"),
             StrOr(Get(s, "endTime"), "00:00"))
  }

  function ToSchedules(v: Value): (r: seq<Schedule>)
    ensures !v.Arr? ==> r == []
  {
    if v.Arr? then
      var kept := Records(v.items);
      seq(|kept|, i requires 0 <= i < |kept| => ToSchedule(kept[i]))
    else []
  }

  /** One element of `ongoingCourses`, sanitised. */
  function ToCourse(c: Value, newId: string): Course {
    Course(
      Some(StrOr(Get(c, "id"), newId)),
      StrOr(Get(c, "room"), ""),
      StrOr(Get(c, "courseName"), ""),
      StrOr(Get(c, "block"), "A"),
      ToSchedules(Get(c, "schedules")))
  }

  /** One element of `newsItems`, sanitised. */
  function ToNewsItem(n: Value, newId: string): NewsItem {
    var image := Get(n, "imageUrl");
    NewsItem(
      StrOr(Get(n, "id"), newId),
      StrOr(Get(n, "title"), ""),
      StrOr(Get(n, "content"), ""),
      Truthy(Get(n, "urgent")),
      if Truthy(image) then Some(ToStr(image)) else None)
  }

  // ---------------------------------------------------------------------
  // Collections
  // ---------------------------------------------------------------------

  function OpenEnrollmentsOf(v: Value, newIds: IdSupply): (r: seq<OpenEnrollment>)
    ensures !v.Arr? ==> r == OpenEnrollmentsCourses
    ensures v.Arr? ==> |r| == |Records(v.items)|
  {
    if v.Arr? then
      var kept := Records(v.items);
      seq(|kept|, i requires 0 <= i < |kept| => ToOpenEnrollment(kept[i], newIds("openEnrollments", i)))
    else OpenEnrollmentsCourses
  }

  function OngoingCoursesOf(v: Value, newIds: IdSupply): (r: seq<Course>)
    ensures !v.Arr? ==> r == OngoingCoursesData
    ensures v.Arr? ==> |r| == |Records(v.items)|
  {
    if v.Arr? then
      var kept := Records(v.items);
      seq(|kept|, i requires 0 <= i < |kept| => ToCourse(kept[i], newIds("ongoingCourses", i)))
    else OngoingCoursesData
  }

  function NewsItemsOf(v: Value, newIds: IdSupply): (r: seq<NewsItem>)
    ensures !v.Arr? ==> r == NewsItemsData
    ensures v.Arr? ==> |r| == |Records(v.items)|
  {
    if v.Arr? then
      var kept := Records(v.items);
      seq(|kept|, i requires 0 <= i < |kept| => ToNewsItem(kept[i], newIds("newsItems", i)))
    else NewsItemsData
  }

  predicate IsVideoUrl(v: Value) {
    v.Str? && Trim(v.s) != ""
  }

  /** `videoUrls`, with the migration of the legacy single `videoUrl`. */
  function VideoUrlsOf(p: Value): (r: seq<Value>)
    ensures Get(p, "videoUrls").Arr? ==> forall u :: u in r ==> IsVideoUrl(u)
    ensures forall u :: u in r ==> Truthy(u)
  {
    var urls := Get(p, "videoUrls");
    var legacy := Get(p, "videoUrl");
    var loaded := if urls.Arr? then Filter(urls.items, IsVideoUrl) else DefaultVideoUrls;
    if Truthy(legacy) && !urls.Arr? then Filter([legacy], Truthy) else loaded
  }

  /** `{ ...defaults, ...(stored || {}) }`. */
  function Overlay(defaults: map<string, Value>, stored: Value): map<string, Value> {
    defaults + SpreadEntries(Or(stored, Obj(map[])))
  }

  function SettingsOf(p: Value): (s: Settings)
    ensures s.layoutOrder == DefaultLayoutOrder || (Truthy(s.layoutOrder) && HasLengthFour(s.layoutOrder))
    ensures DefaultFooterSettings.Keys <= s.footerSettings.Keys
    ensures DefaultOpenEnrollmentsCarousel.Keys <= s.openEnrollmentsCarousel.Keys
    ensures DefaultNewsCarousel.Keys <= s.newsCarousel.Keys
  {
    var loaded := Or(Get(p, "settings"), Obj(map[]));
    var order := Get(loaded, "layoutOrder");
    Settings(
      if Truthy(order) && HasLengthFour(order) then order else DefaultLayoutOrder,
      Overlay(DefaultFooterSettings, Get(loaded, "footerSettings")),
      Overlay(DefaultOpenEnrollmentsCarousel, Get(loaded, "openEnrollmentsCarousel")),
      Overlay(DefaultNewsCarousel, Get(loaded, "newsCarousel")))
  }

  /** A parsed blob the sanitiser accepts: a non-null object that is not an array. */
  predicate IsDataObject(v: Value) {
    v.Obj?
  }

  /**
   * `loadData()`: `stored` is the parsed blob (`None` when nothing is stored
   * or it is not JSON).
   */
  function LoadData(stored: Option<Value>, newIds: IdSupply, now: int): (d: AppData)
    ensures stored.None? || !IsDataObject(stored.value) ==> d == DefaultData(now)
  {
    if stored.None? || !IsDataObject(stored.value) then DefaultData(now)
    else
      var p := stored.value;
      var last := Get(p, "lastUpdate");
      AppData(
        OpenEnrollmentsOf(Get(p, "openEnrollments"), newIds),
        OngoingCoursesOf(Get(p, "ongoingCourses"), newIds),
        NewsItemsOf(Get(p, "newsItems"), newIds),
        VideoUrlsOf(p),
        SettingsOf(p),
        if last.Num? then last.n else now)
  }

  // ---------------------------------------------------------------------
  // The JSON image of the canonical data
  // ---------------------------------------------------------------------

  function OptionalField(key: string, v: Option<string>): map<string, Value> {
    if v.Some? then map[key := Str(v.value)] else map[]
  }

  function EncodeOpenEnrollment(e: OpenEnrollment): Value {
    Obj(OptionalField("id", e.id) + map[
      "name" := Str(e.name), "workload" := Num(e.workload), "startDate" := Str(e.startDate),
      "endDate" := Str(e.endDate), "schedule" := Str(e.schedule), "enrollmentUrl" := Str(e.enrollmentUrl),
      "vacancies" := Str(VacanciesName(e.vacancies))])
  }

  function EncodeSchedule(s: Schedule): Value {
    Obj(map["dayOfWeek" := Num(s.dayOfWeek), "startTime" := Str(s.startTime), "endTime" := Str(s.endTime)])
  }

  function EncodeCourse(c: Course): Value {
    Obj(OptionalField("id", c.id) + map[
      "room" := Str(c.room), "courseName" := Str(c.courseName), "block" := Str(c.block),
      "schedules" := Arr(seq(|c.schedules|, i requires 0 <= i < |c.schedules| => EncodeSchedule(c.schedules[i])))])
  }

  function EncodeNewsItem(n: NewsItem): Value {
    Obj(OptionalField("imageUrl", n.imageUrl) + map[
      "id" := Str(n.id), "title" := Str(n.title), "content" := Str(n.content), "urgent" := Bool(n.urgent)])
  }

  function EncodeSettings(s: Settings): Value {
    Obj(map[
      "layoutOrder" := s.layoutOrder, "footerSettings" := Obj(s.footerSettings),
      "openEnrollmentsCarousel" := Obj(s.openEnrollmentsCarousel), "newsCarousel" := Obj(s.newsCarousel)])
  }

  function EncodeOpenEnrollments(xs: seq<OpenEnrollment>): (r: seq<Value>)
    ensures |r| == |xs| && forall i :: 0 <= i < |xs| ==> r[i] == EncodeOpenEnrollment(xs[i])
  {
    seq(|xs|, i requires 0 <= i < |xs| => EncodeOpenEnrollment(xs[i]))
  }

  function EncodeCourses(xs: seq<Course>): (r: seq<Value>)
    ensures |r| == |xs| && forall i :: 0 <= i < |xs| ==> r[i] == EncodeCourse(xs[i])
  {
    seq(|xs|, i requires 0 <= i < |xs| => EncodeCourse(xs[i]))
  }

  function EncodeNewsItems(xs: seq<NewsItem>): (r: seq<Value>)
    ensures |r| == |xs| && forall i :: 0 <= i < |xs| ==> r[i] == EncodeNewsItem(xs[i])
  {
    seq(|xs|, i requires 0 <= i < |xs| => EncodeNewsItem(xs[i]))
  }

  /** What `JSON.parse(JSON.stringify(d))` gives back for data whose stored values are JSON. */
  function Encode(d: AppData): Value {
    Obj(map[
      "openEnrollments" := Arr(EncodeOpenEnrollments(d.openEnrollments)),
      "ongoingCourses" := Arr(EncodeCourses(d.ongoingCourses)),
      "newsItems" := Arr(EncodeNewsItems(d.newsItems)),
      "videoUrls" := Arr(d.videoUrls),
      "settings" := EncodeSettings(d.settings),
      "lastUpdate" := Num(d.lastUpdate)])
  }

  // ---------------------------------------------------------------------
  // saveData, importBackup, loadUsers
  // ---------------------------------------------------------------------

  /** The five data fields `saveData` takes from the partial when truthy. */
  const DataFields: seq<string> := ["openEnrollments", "ongoingCourses", "newsItems", "videoUrls", "settings"]

  /** The keys of a saved blob: the data fields and `lastUpdate`, nothing else. */
  const SavedKeys: set<string> := {"openEnrollments", "ongoingCourses", "newsItems", "videoUrls", "settings", "lastUpdate"}

  /**
   * `saveData(partial)`: the blob written back, each data field from the
   * partial when it is truthy and otherwise from the current data, with a
   * fresh `lastUpdate`.
   */
  function SaveData(stored: Option<Value>, partial: Value, newIds: IdSupply, now: int): (saved: Value)
    ensures saved.Obj? && saved.fields.Keys == SavedKeys
    ensures Get(saved, "lastUpdate") == Num(now)
  {
    MergeForSave(partial, Encode(LoadData(stored, newIds, now)), now)
  }

  /** The object literal `dataToSave`, from the partial and the current data's JSON image. */
  function MergeForSave(partial: Value, current: Value, now: int): (saved: Value)
    ensures saved.Obj? && saved.fields.Keys == SavedKeys
    ensures Get(saved, "lastUpdate") == Num(now)
  {
    Obj(map[
      "openEnrollments" := Or(Get(partial, "openEnrollments"), Get(current, "openEnrollments")),
      "ongoingCourses" := Or(Get(partial, "ongoingCourses"), Get(current, "ongoingCourses")),
      "newsItems" := Or(Get(partial, "newsItems"), Get(current, "newsItems")),
      "videoUrls" := Or(Get(partial, "videoUrls"), Get(current, "videoUrls")),
      "settings" := Or(Get(partial, "settings"), Get(current, "settings")),
      "lastUpdate" := Num(now)])
  }

  datatype ImportResult = ImportResult(success: bool, message: string)

  /**
   * `importBackup(file)`: `parsed` is the file's text parsed as JSON (`None`
   * when it is not JSON). Returns the outcome and the new stored blob.
   */
  function ImportBackup(parsed: Option<Value>, stored: Option<Value>, newIds: IdSupply, now: int)
    : (r: (ImportResult, Option<Value>))
    ensures !r.0.success ==> r.1 == stored
  {
    if parsed.None? || parsed.value.Null? then
      // JSON.parse failed, or reading `settings` of null threw
      (ImportResult(false, "Erro ao ler o arquivo."), stored)
    else
      var p := parsed.value;
      if !Truthy(Get(p, "settings")) || !Get(p, "openEnrollments").Arr? then
        (ImportResult(false, "Arquivo inválido ou corrompido."), stored)
      else
        (ImportResult(true, "Backup restaurado com sucesso!"), Some(SaveData(stored, p, newIds, now)))
  }

  const DefaultAdminUser: Value :=
    Obj(map["id" := Str("default-admin"), "username" := Str("admin"), "password" := Str("123"), "role" := Str("admin")])

  /** `loadUsers()`: the stored users when they are a non-empty array, else the default admin. */
  function LoadUsers(stored: Option<Value>): (users: seq<Value>)
    ensures |users| > 0
    ensures stored.Some? && stored.value.Arr? && |stored.value.items| > 0 ==> users == stored.value.items
    ensures !(stored.Some? && stored.value.Arr? && |stored.value.items| > 0) ==> users == [DefaultAdminUser]
  {
    if stored.Some? && stored.value.Arr? && |stored.value.items| > 0 then stored.value.items else [DefaultAdminUser]
  }

  // ---------------------------------------------------------------------
  // Properties of the sanitiser
  // ---------------------------------------------------------------------

  /** A truthy stored id is kept (stringified); a missing or falsy one is replaced by a new id. */
  lemma IdsKeptOrReplaced(v: Value, newId: string)
    ensures var id := Get(v, "id");
      && (Truthy(id) ==> ToOpenEnrollment(v, newId).id == Some(ToStr(id))
                         && ToCourse(v, newId).id == Some(ToStr(id)) && ToNewsItem(v, newId).id == ToStr(id))
      && (!Truthy(id) ==> ToOpenEnrollment(v, newId).id == Some(newId)
                          && ToCourse(v, newId).id == Some(newId) && ToNewsItem(v, newId).id == newId)
  {
  }

  /**
   * A schedule's day defaults to 1 only when missing or null (0 is kept),
   * and a falsy time becomes "00:00".
   */
  lemma ScheduleDefaults(s: Value)
    ensures var day, r := Get(s, "dayOfWeek"), ToSchedule(s);
      && (day.Undefined? || day.Null? ==> r.dayOfWeek == 1)
      && (day.Num? ==> r.dayOfWeek == day.n)
      && (!Truthy(Get(s, "startTime")) ==> r.startTime == "00:00")
      && (Get(s, "startTime").Str? && Get(s, "startTime").s != "" ==> r.startTime == Get(s, "startTime").s)
      && (!Truthy(Get(s, "endTime")) ==> r.endTime == "00:00")
      && (Get(s, "endTime").Str? && Get(s, "endTime").s != "" ==> r.endTime == Get(s, "endTime").s)
  {
  }

  lemma ExampleDayZeroKept()
    ensures ToSchedule(Obj(map["dayOfWeek" := Num(0)])).dayOfWeek == 0
    ensures ToSchedule(Obj(map["dayOfWeek" := Null])).dayOfWeek == 1
  {
  }

  /** A course whose `schedules` is not an array gets none. */
  lemma NonArraySchedulesDropped(c: Value, newId: string)
    requires !Get(c, "schedules").Arr?
    ensures ToCourse(c, newId).schedules == []
  {
  }

  /** Each collection keeps, in order, one record per element that is a truthy object. */
  lemma CollectionsFollowRecords(v: Value, newIds: IdSupply)
    requires v.Arr?
    ensures var kept := Records(v.items);
      && |OpenEnrollmentsOf(v, newIds)| == |kept| && |OngoingCoursesOf(v, newIds)| == |kept|
      && |NewsItemsOf(v, newIds)| == |kept|
      && (forall i :: 0 <= i < |kept| ==>
            && OpenEnrollmentsOf(v, newIds)[i] == ToOpenEnrollment(kept[i], newIds("openEnrollments", i))
            && OngoingCoursesOf(v, newIds)[i] == ToCourse(kept[i], newIds("ongoingCourses", i))
            && NewsItemsOf(v, newIds)[i] == ToNewsItem(kept[i], newIds("newsItems", i)))
      && IsSubsequence(kept, v.items)
      && (forall x :: x in kept <==> x in v.items && IsRecord(x))
      && (forall x {:trigger multiset(kept)[x]} :: multiset(kept)[x] == if IsRecord(x) then multiset(v.items)[x] else 0)
  {
  }

  /** Every kept video URL is a non-blank string; a legacy `videoUrl` is migrated only without `videoUrls`. */
  lemma VideoUrlsSanitised(p: Value)
    ensures var urls, legacy, r := Get(p, "videoUrls"), Get(p, "videoUrl"), VideoUrlsOf(p);
      && (urls.Arr? ==> IsSubsequence(r, urls.items) && (forall u :: u in r <==> u in urls.items && IsVideoUrl(u))
                        && forall u {:trigger multiset(r)[u]} :: multiset(r)[u] == if IsVideoUrl(u) then multiset(urls.items)[u] else 0)
      && (!urls.Arr? && Truthy(legacy) ==> r == [legacy])
      && (!urls.Arr? && !Truthy(legacy) ==> r == DefaultVideoUrls)
  {
    var legacy := Get(p, "videoUrl");
    if Truthy(legacy) {
      assert Filter([legacy][1..], Truthy) == [];
    }
  }

  /** `layoutOrder` is kept exactly when it is truthy and has length 4. */
  lemma LayoutOrderKeptIffLengthFour(p: Value)
    ensures var order := Get(Or(Get(p, "settings"), Obj(map[])), "layoutOrder");
      && (Truthy(order) && HasLengthFour(order) ==> SettingsOf(p).layoutOrder == order)
      && (!(Truthy(order) && HasLengthFour(order)) ==> SettingsOf(p).layoutOrder == DefaultLayoutOrder)
  {
  }

  /** Any value of length 4 passes the check, a four-letter string included. */
  lemma ExampleStringLayoutOrder()
    ensures SettingsOf(Obj(map["settings" := Obj(map["layoutOrder" := Str("abcd")])])).layoutOrder == Str("abcd")
  {
    var settings := Obj(map["layoutOrder" := Str("abcd")]);
    var p := Obj(map["settings" := settings]);
    assert Get(p, "settings") == settings;
    assert Get(settings, "layoutOrder") == Str("abcd");
    assert Truthy(Str("abcd")) && HasLengthFour(Str("abcd"));
    LayoutOrderKeptIffLengthFour(p);
  }

  /**
   * The overlay keeps every stored field, whatever its name or type, and
   * takes the default for the rest.
   */
  lemma OverlayKeepsStoredFields(defaults: map<string, Value>, stored: map<string, Value>)
    ensures var r := Overlay(defaults, Obj(stored));
      && r.Keys == defaults.Keys + stored.Keys
      && (forall k :: k in stored ==> r[k] == stored[k])
      && (forall k :: k in defaults && k !in stored ==> r[k] == defaults[k])
  {
  }

  /**
   * A stored footer field survives the merge whatever its type: there is
   * no type check, so `showLogo: "no"` is loaded as the string "no".
   */
  lemma StoredFooterFieldKept(key: string, v: Value)
    ensures var loaded := SettingsOf(Obj(map["settings" := Obj(map["footerSettings" := Obj(map[key := v])])]));
      key in loaded.footerSettings && loaded.footerSettings[key] == v
  {
    StoredFooterSettings(Obj(map[key := v]));
    OverlayKeepsStoredFields(DefaultFooterSettings, map[key := v]);
  }

  /** A blob holding only `settings.footerSettings` loads that object over the footer defaults. */
  lemma StoredFooterSettings(footer: Value)
    ensures SettingsOf(Obj(map["settings" := Obj(map["footerSettings" := footer])])).footerSettings
            == Overlay(DefaultFooterSettings, footer)
  {
    var settings := Obj(map["footerSettings" := footer]);
    var p := Obj(map["settings" := settings]);
    assert Get(p, "settings") == settings;
    assert Get(settings, "footerSettings") == footer;
  }

  /** Each settings sub-object is merged from its own stored field only. */
  lemma SettingsMergedIndependently(p: Value, q: Value, key: string)
    requires key in ["footerSettings", "openEnrollmentsCarousel", "newsCarousel"]
    requires Get(Or(Get(p, "settings"), Obj(map[])), key) == Get(Or(Get(q, "settings"), Obj(map[])), key)
    ensures key == "footerSettings" ==> SettingsOf(p).footerSettings == SettingsOf(q).footerSettings
    ensures key == "openEnrollmentsCarousel" ==> SettingsOf(p).openEnrollmentsCarousel == SettingsOf(q).openEnrollmentsCarousel
    ensures key == "newsCarousel" ==> SettingsOf(p).newsCarousel == SettingsOf(q).newsCarousel
  {
    var lp, lq := Or(Get(p, "settings"), Obj(map[])), Or(Get(q, "settings"), Obj(map[]));
    assert SettingsOf(p).footerSettings == Overlay(DefaultFooterSettings, Get(lp, "footerSettings"));
    assert SettingsOf(q).footerSettings == Overlay(DefaultFooterSettings, Get(lq, "footerSettings"));
    assert SettingsOf(p).openEnrollmentsCarousel == Overlay(DefaultOpenEnrollmentsCarousel, Get(lp, "openEnrollmentsCarousel"));
    assert SettingsOf(q).openEnrollmentsCarousel == Overlay(DefaultOpenEnrollmentsCarousel, Get(lq, "openEnrollmentsCarousel"));
    assert SettingsOf(p).newsCarousel == Overlay(DefaultNewsCarousel, Get(lp, "newsCarousel"));
    assert SettingsOf(q).newsCarousel == Overlay(DefaultNewsCarousel, Get(lq, "newsCarousel"));
  }

  // ---------------------------------------------------------------------
  // Round trip: sanitising the JSON image of canonical data gives it back
  // ---------------------------------------------------------------------

  predicate HasId(id: Option<string>) {
    id.Some? && id.value != ""
  }

  predicate CanonicalOpenEnrollment(e: OpenEnrollment) {
    HasId(e.id) && e.name != ""
  }

  predicate CanonicalSchedule(s: Schedule) {
    s.startTime != "" && s.endTime != ""
  }

  predicate CanonicalCourse(c: Course) {
    HasId(c.id) && c.block != "" && forall k :: 0 <= k < |c.schedules| ==> CanonicalSchedule(c.schedules[k])
  }

  predicate CanonicalNewsItem(n: NewsItem) {
    n.id != "" && (n.imageUrl.Some? ==> n.imageUrl.value != "")
  }

  predicate CanonicalSettings(s: Settings) {
    && Truthy(s.layoutOrder) && HasLengthFour(s.layoutOrder)
    && DefaultFooterSettings.Keys <= s.footerSettings.Keys
    && DefaultOpenEnrollmentsCarousel.Keys <= s.openEnrollmentsCarousel.Keys
    && DefaultNewsCarousel.Keys <= s.newsCarousel.Keys
  }

  /**
   * Data the sanitiser reproduces: every record has a non-empty id, no
   * field holds a falsy value the sanitiser would replace by its default,
   * every video URL is a non-blank string, and the settings already hold
   * every default field.
   */
  predicate Canonical(d: AppData) {
    && (forall i :: 0 <= i < |d.openEnrollments| ==> CanonicalOpenEnrollment(d.openEnrollments[i]))
    && (forall i :: 0 <= i < |d.ongoingCourses| ==> CanonicalCourse(d.ongoingCourses[i]))
    && (forall i :: 0 <= i < |d.newsItems| ==> CanonicalNewsItem(d.newsItems[i]))
    && (forall i :: 0 <= i < |d.videoUrls| ==> IsVideoUrl(d.videoUrls[i]))
    && CanonicalSettings(d.settings)
  }

  lemma RecordsOfObjects(items: seq<Value>)
    requires forall i :: 0 <= i < |items| ==> items[i].Obj?
    ensures Records(items) == items
  {
    FilterAll(items, IsRecord);
  }

  lemma StrOrOfStr(s: string, d: string)
    requires s != "" || d == ""
    ensures StrOr(Str(s), d) == s
  {
  }

  lemma OpenEnrollmentRoundTrip(e: OpenEnrollment, newId: string)
    requires CanonicalOpenEnrollment(e)
    ensures ToOpenEnrollment(EncodeOpenEnrollment(e), newId) == e
  {
    EncodedOpenEnrollmentFields(e);
    StrOrOfStr(e.id.value, newId);
    StrOrOfStr(e.name, "Curso");
    StrOrOfStr(e.startDate, "");
    StrOrOfStr(e.endDate, "");
    StrOrOfStr(e.schedule, "");
    StrOrOfStr(e.enrollmentUrl, "");
  }

  /** The stored fields of an encoded open enrollment. */
  lemma EncodedOpenEnrollmentFields(e: OpenEnrollment)
    requires e.id.Some?
    ensures var v := EncodeOpenEnrollment(e);
      && Get(v, "id") == Str(e.id.value)
      && Get(v, "name") == Str(e.name)
      && Get(v, "workload") == Num(e.workload)
      && Get(v, "startDate") == Str(e.startDate)
      && Get(v, "endDate") == Str(e.endDate)
      && Get(v, "schedule") == Str(e.schedule)
      && Get(v, "enrollmentUrl") == Str(e.enrollmentUrl)
      && Get(v, "vacancies") == Str(VacanciesName(e.vacancies))
  {
  }

  lemma ScheduleRoundTrip(s: Schedule)
    requires CanonicalSchedule(s)
    ensures ToSchedule(EncodeSchedule(s)) == s
  {
  }

  lemma CourseRoundTrip(c: Course, newId: string)
    requires CanonicalCourse(c)
    ensures ToCourse(EncodeCourse(c), newId) == c
  {
    var v := EncodeCourse(c);
    var encoded := seq(|c.schedules|, i requires 0 <= i < |c.schedules| => EncodeSchedule(c.schedules[i]));
    EncodedCourseFields(c);
    RecordsOfObjects(encoded);
    forall i | 0 <= i < |c.schedules| ensures ToSchedule(encoded[i]) == c.schedules[i] {
      ScheduleRoundTrip(c.schedules[i]);
    }
    assert ToSchedules(Get(v, "schedules")) == c.schedules;
    StrOrOfStr(c.id.value, newId);
    StrOrOfStr(c.room, "");
    StrOrOfStr(c.courseName, "");
    StrOrOfStr(c.block, "A");
  }

  /** The stored fields of an encoded course. */
  lemma EncodedCourseFields(c: Course)
    requires c.id.Some?
    ensures var v := EncodeCourse(c);
      && Get(v, "id") == Str(c.id.value)
      && Get(v, "room") == Str(c.room)
      && Get(v, "courseName") == Str(c.courseName)
      && Get(v, "block") == Str(c.block)
      && Get(v, "schedules") == Arr(seq(|c.schedules|, i requires 0 <= i < |c.schedules| => EncodeSchedule(c.schedules[i])))
  {
  }

  lemma NewsItemRoundTrip(n: NewsItem, newId: string)
    requires CanonicalNewsItem(n)
    ensures ToNewsItem(EncodeNewsItem(n), newId) == n
  {
    var v := EncodeNewsItem(n);
    assert Get(v, "id") == Str(n.id);
    if n.imageUrl.Some? {
      assert Get(v, "imageUrl") == Str(n.imageUrl.value);
    } else {
      assert Get(v, "imageUrl") == Undefined;
    }
  }

  lemma OverlayOfFullMap(defaults: map<string, Value>, m: map<string, Value>)
    requires defaults.Keys <= m.Keys
    ensures Overlay(defaults, Obj(m)) == m
  {
  }

  /** The stored fields of encoded settings. */
  lemma EncodedSettingsFields(s: Settings)
    ensures var v := EncodeSettings(s);
      && Or(v, Obj(map[])) == v
      && Get(v, "layoutOrder") == s.layoutOrder
      && Get(v, "footerSettings") == Obj(s.footerSettings)
      && Get(v, "openEnrollmentsCarousel") == Obj(s.openEnrollmentsCarousel)
      && Get(v, "newsCarousel") == Obj(s.newsCarousel)
  {
  }

  lemma SettingsRoundTrip(s: Settings)
    requires CanonicalSettings(s)
    ensures SettingsOf(Obj(map["settings" := EncodeSettings(s)])) == s
  {
    var p := Obj(map["settings" := EncodeSettings(s)]);
    assert Get(p, "settings") == EncodeSettings(s);
    EncodedSettingsFields(s);
    OverlayOfFullMap(DefaultFooterSettings, s.footerSettings);
    OverlayOfFullMap(DefaultOpenEnrollmentsCarousel, s.openEnrollmentsCarousel);
    OverlayOfFullMap(DefaultNewsCarousel, s.newsCarousel);
  }

  /** The stored fields of the encoded data; there is no legacy `videoUrl`. */
  lemma EncodedDataFields(d: AppData)
    ensures var v := Encode(d);
      && Get(v, "openEnrollments") == Arr(EncodeOpenEnrollments(d.openEnrollments))
      && Get(v, "ongoingCourses") == Arr(EncodeCourses(d.ongoingCourses))
      && Get(v, "newsItems") == Arr(EncodeNewsItems(d.newsItems))
      && Get(v, "videoUrls") == Arr(d.videoUrls)
      && Get(v, "videoUrl") == Undefined
      && Get(v, "settings") == EncodeSettings(d.settings)
      && Get(v, "lastUpdate") == Num(d.lastUpdate)
  {
  }

  lemma SettingsOfEncode(d: AppData)
    ensures SettingsOf(Encode(d)) == SettingsOf(Obj(map["settings" := EncodeSettings(d.settings)]))
  {
    assert Get(Encode(d), "settings") == EncodeSettings(d.settings);
  }

  lemma OpenEnrollmentsRoundTrip(xs: seq<OpenEnrollment>, newIds: IdSupply)
    requires forall i :: 0 <= i < |xs| ==> CanonicalOpenEnrollment(xs[i])
    ensures OpenEnrollmentsOf(Arr(EncodeOpenEnrollments(xs)), newIds) == xs
  {
    RecordsOfObjects(EncodeOpenEnrollments(xs));
    forall i | 0 <= i < |xs| ensures ToOpenEnrollment(EncodeOpenEnrollments(xs)[i], newIds("openEnrollments", i)) == xs[i] {
      OpenEnrollmentRoundTrip(xs[i], newIds("openEnrollments", i));
    }
  }

  lemma CoursesRoundTrip(xs: seq<Course>, newIds: IdSupply)
    requires forall i :: 0 <= i < |xs| ==> CanonicalCourse(xs[i])
    ensures OngoingCoursesOf(Arr(EncodeCourses(xs)), newIds) == xs
  {
    RecordsOfObjects(EncodeCourses(xs));
    forall i | 0 <= i < |xs| ensures ToCourse(EncodeCourses(xs)[i], newIds("ongoingCourses", i)) == xs[i] {
      CourseRoundTrip(xs[i], newIds("ongoingCourses", i));
    }
  }

  lemma NewsItemsRoundTrip(xs: seq<NewsItem>, newIds: IdSupply)
    requires forall i :: 0 <= i < |xs| ==> CanonicalNewsItem(xs[i])
    ensures NewsItemsOf(Arr(EncodeNewsItems(xs)), newIds) == xs
  {
    RecordsOfObjects(EncodeNewsItems(xs));
    forall i | 0 <= i < |xs| ensures ToNewsItem(EncodeNewsItems(xs)[i], newIds("newsItems", i)) == xs[i] {
      NewsItemRoundTrip(xs[i], newIds("newsItems", i));
    }
  }

  /** Sanitising the JSON image of canonical data gives the same data back, whatever the id supply. */
  lemma LoadEncodeRoundTrip(d: AppData, newIds: IdSupply, now: int)
    requires Canonical(d)
    ensures LoadData(Some(Encode(d)), newIds, now) == d
  {
    EncodedDataFields(d);
    OpenEnrollmentsRoundTrip(d.openEnrollments, newIds);
    CoursesRoundTrip(d.ongoingCourses, newIds);
    NewsItemsRoundTrip(d.newsItems, newIds);
    FilterAll(d.videoUrls, IsVideoUrl);
    SettingsOfEncode(d);
    SettingsRoundTrip(d.settings);
  }

  // ---------------------------------------------------------------------
  // Ids across a second pass, and the save / import path
  // ---------------------------------------------------------------------

  predicate IdsNonEmpty(d: AppData) {
    && (forall i :: 0 <= i < |d.openEnrollments| ==> HasId(d.openEnrollments[i].id))
    && (forall i :: 0 <= i < |d.ongoingCourses| ==> HasId(d.ongoingCourses[i].id))
    && (forall i :: 0 <= i < |d.newsItems| ==> d.newsItems[i].id != "")
  }

  lemma OpenEnrollmentIdEncoded(e: OpenEnrollment)
    requires e.id.Some?
    ensures Get(EncodeOpenEnrollment(e), "id") == Str(e.id.value)
  {
  }

  lemma CourseIdEncoded(c: Course)
    requires c.id.Some?
    ensures Get(EncodeCourse(c), "id") == Str(c.id.value)
  {
  }

  lemma NewsItemIdEncoded(n: NewsItem)
    ensures Get(EncodeNewsItem(n), "id") == Str(n.id)
  {
  }

  /** A record whose stored id is a non-empty string keeps it. */
  lemma IdOfEncodedRecord(v: Value, id: string, newId: string)
    requires id != "" && Get(v, "id") == Str(id)
    ensures ToOpenEnrollment(v, newId).id == Some(id)
    ensures ToCourse(v, newId).id == Some(id)
    ensures ToNewsItem(v, newId).id == id
  {
  }

  lemma OpenEnrollmentIdsKept(xs: seq<OpenEnrollment>, newIds: IdSupply)
    requires forall i :: 0 <= i < |xs| ==> HasId(xs[i].id)
    ensures var ys := OpenEnrollmentsOf(Arr(EncodeOpenEnrollments(xs)), newIds);
      |ys| == |xs| && forall i :: 0 <= i < |xs| ==> ys[i].id == xs[i].id
  {
    RecordsOfObjects(EncodeOpenEnrollments(xs));
    forall i | 0 <= i < |xs| ensures ToOpenEnrollment(EncodeOpenEnrollment(xs[i]), newIds("openEnrollments", i)).id == xs[i].id {
      OpenEnrollmentIdEncoded(xs[i]);
      IdOfEncodedRecord(EncodeOpenEnrollment(xs[i]), xs[i].id.value, newIds("openEnrollments", i));
    }
  }

  lemma CourseIdsKept(xs: seq<Course>, newIds: IdSupply)
    requires forall i :: 0 <= i < |xs| ==> HasId(xs[i].id)
    ensures var ys := OngoingCoursesOf(Arr(EncodeCourses(xs)), newIds);
      |ys| == |xs| && forall i :: 0 <= i < |xs| ==> ys[i].id == xs[i].id
  {
    RecordsOfObjects(EncodeCourses(xs));
    forall i | 0 <= i < |xs| ensures ToCourse(EncodeCourse(xs[i]), newIds("ongoingCourses", i)).id == xs[i].id {
      CourseIdEncoded(xs[i]);
      IdOfEncodedRecord(EncodeCourse(xs[i]), xs[i].id.value, newIds("ongoingCourses", i));
    }
  }

  lemma NewsItemIdsKept(xs: seq<NewsItem>, newIds: IdSupply)
    requires forall i :: 0 <= i < |xs| ==> xs[i].id != ""
    ensures var ys := NewsItemsOf(Arr(EncodeNewsItems(xs)), newIds);
      |ys| == |xs| && forall i :: 0 <= i < |xs| ==> ys[i].id == xs[i].id
  {
    RecordsOfObjects(EncodeNewsItems(xs));
    forall i | 0 <= i < |xs| ensures ToNewsItem(EncodeNewsItem(xs[i]), newIds("newsItems", i)).id == xs[i].id {
      NewsItemIdEncoded(xs[i]);
      IdOfEncodedRecord(EncodeNewsItem(xs[i]), xs[i].id, newIds("newsItems", i));
    }
  }

  /** The three collections of the data that `Encode` writes, as `LoadData` reads them back. */
  lemma LoadEncodeCollections(d: AppData, newIds: IdSupply, now: int)
    ensures var d' := LoadData(Some(Encode(d)), newIds, now);
      && d'.openEnrollments == OpenEnrollmentsOf(Arr(EncodeOpenEnrollments(d.openEnrollments)), newIds)
      && d'.ongoingCourses == OngoingCoursesOf(Arr(EncodeCourses(d.ongoingCourses)), newIds)
      && d'.newsItems == NewsItemsOf(Arr(EncodeNewsItems(d.newsItems)), newIds)
  {
    EncodedDataFields(d);
  }

  /**
   * Sanitising the JSON image of sanitised data again keeps every record
   * and every id, provided no id came out empty.
   */
  lemma ResanitisingKeepsIds(d: AppData, newIds: IdSupply, now: int)
    requires IdsNonEmpty(d)
    ensures var d' := LoadData(Some(Encode(d)), newIds, now);
      && |d'.openEnrollments| == |d.openEnrollments| && |d'.ongoingCourses| == |d.ongoingCourses|
      && |d'.newsItems| == |d.newsItems|
      && (forall i :: 0 <= i < |d.openEnrollments| ==> d'.openEnrollments[i].id == d.openEnrollments[i].id)
      && (forall i :: 0 <= i < |d.ongoingCourses| ==> d'.ongoingCourses[i].id == d.ongoingCourses[i].id)
      && (forall i :: 0 <= i < |d.newsItems| ==> d'.newsItems[i].id == d.newsItems[i].id)
  {
    LoadEncodeCollections(d, newIds, now);
    OpenEnrollmentIdsKept(d.openEnrollments, newIds);
    CourseIdsKept(d.ongoingCourses, newIds);
    NewsItemIdsKept(d.newsItems, newIds);
  }

  /** A stored id `[]` is truthy, so the first pass keeps it, stringified to "". */
  lemma ExampleEmptyArrayIdKept(newIds: IdSupply)
    ensures var courses := OngoingCoursesOf(Arr([Obj(map["id" := Arr([])])]), newIds);
      |courses| == 1 && courses[0].id == Some("")
  {
    var course := Obj(map["id" := Arr([])]);
    RecordsOfObjects([course]);
    assert Get(course, "id") == Arr([]);
    assert ToStr(Arr([])) == "";
    assert OngoingCoursesOf(Arr([course]), newIds)[0] == ToCourse(course, newIds("ongoingCourses", 0));
  }

  /** A course whose id is "" is stored with `id: ""`, which is falsy, so the next pass gives it a new id. */
  lemma EmptyIdReplaced(courses: seq<Course>, newIds: IdSupply)
    requires courses != [] && courses[0].id == Some("")
    ensures var again := OngoingCoursesOf(Arr(EncodeCourses(courses)), newIds);
      again != [] && again[0].id == Some(newIds("ongoingCourses", 0))
  {
    var encoded := EncodeCourses(courses);
    RecordsOfObjects(encoded);
    EncodedCourseFields(courses[0]);
    assert OngoingCoursesOf(Arr(encoded), newIds)[0] == ToCourse(encoded[0], newIds("ongoingCourses", 0));
  }

  /**
   * The hypothesis is needed: a stored id `[]` is truthy, so it is kept,
   * but it stringifies to "" and the next pass replaces it.
   */
  lemma ExampleEmptyArrayIdReplaced(newIds: IdSupply, newIds': IdSupply)
    ensures var courses := OngoingCoursesOf(Arr([Obj(map["id" := Arr([])])]), newIds);
      && |courses| == 1 && courses[0].id == Some("")
      && OngoingCoursesOf(Arr(EncodeCourses(courses)), newIds')[0].id == Some(newIds'("ongoingCourses", 0))
  {
    ExampleEmptyArrayIdKept(newIds);
    EmptyIdReplaced(OngoingCoursesOf(Arr([Obj(map["id" := Arr([])])]), newIds), newIds');
  }

  /** `saveData` takes each data field from the partial when truthy, else from the current data, and stamps `now`. */
  lemma SaveTakesTruthyFields(partial: Value, current: Value, now: int)
    ensures var saved := MergeForSave(partial, current, now);
      && (forall k :: k in DataFields && Truthy(Get(partial, k)) ==> Get(saved, k) == Get(partial, k))
      && (forall k :: k in DataFields && !Truthy(Get(partial, k)) ==> Get(saved, k) == Get(current, k))
  {
    var saved := MergeForSave(partial, current, now);
    forall k | k in DataFields ensures Get(saved, k) == Or(Get(partial, k), Get(current, k)) {
      assert k == "openEnrollments" || k == "ongoingCourses" || k == "newsItems" || k == "videoUrls" || k == "settings";
    }
  }

  /** Merging a partial that brings nothing into the image of `d` gives `d` restamped. */
  lemma MergeEmptyPartial(d: AppData, now: int)
    ensures MergeForSave(Obj(map[]), Encode(d), now) == Encode(d.(lastUpdate := now))
  {
  }

  /** A full image of `d` as the partial replaces every data field of the current data. */
  lemma MergeFullPartial(d: AppData, current: Value, now: int)
    ensures MergeForSave(Encode(d), current, now) == Encode(d.(lastUpdate := now))
  {
    EncodedDataFields(d);
  }

  /** Saving canonical data in full and loading it back gives that data, stamped with the save time. */
  lemma SaveFullDataThenLoad(stored: Option<Value>, d: AppData, newIds: IdSupply, now: int, newIds': IdSupply, now': int)
    requires Canonical(d)
    ensures LoadData(Some(SaveData(stored, Encode(d), newIds, now)), newIds', now') == d.(lastUpdate := now)
  {
    var d' := d.(lastUpdate := now);
    MergeFullPartial(d, Encode(LoadData(stored, newIds, now)), now);
    LoadEncodeRoundTrip(d', newIds', now');
  }

  /** Saving an empty partial keeps canonical current data; only `lastUpdate` moves. */
  lemma SaveEmptyPartialThenLoad(stored: Option<Value>, newIds: IdSupply, now: int, newIds': IdSupply, now': int)
    requires Canonical(LoadData(stored, newIds, now))
    ensures LoadData(Some(SaveData(stored, Obj(map[]), newIds, now)), newIds', now')
            == LoadData(stored, newIds, now).(lastUpdate := now)
  {
    var d := LoadData(stored, newIds, now);
    var d' := d.(lastUpdate := now);
    MergeEmptyPartial(d, now);
    LoadEncodeRoundTrip(d', newIds', now');
  }

  /**
   * An import succeeds exactly when the file is a JSON value other than
   * null with a truthy `settings` and an array `openEnrollments`; it then
   * saves the file as a partial, and otherwise leaves the store alone.
   */
  lemma ImportBackupOutcome(parsed: Option<Value>, stored: Option<Value>, newIds: IdSupply, now: int)
    ensures var r := ImportBackup(parsed, stored, newIds, now);
      && (r.0.success <==> parsed.Some? && !parsed.value.Null? && Truthy(Get(parsed.value, "settings"))
                           && Get(parsed.value, "openEnrollments").Arr?)
      && (r.0.success ==> r.1 == Some(SaveData(stored, parsed.value, newIds, now)))
      && (!r.0.success ==> r.1 == stored)
  {
  }
}
