/** The records of the mural's data set, in canonical (sanitised) form. */
module Types {
  import opened Wrappers
  import opened JsValue

  /** One weekly time slot: a weekday 0 (Sunday) to 6 and two "HH:mm" strings. */
  datatype Schedule = Schedule(dayOfWeek: int, startTime: string, endTime: string)

  /**
   * An ongoing course. `id` is absent on a course that has not been saved
   * yet (the source's `Omit<OngoingCourse, 'id'>`).
   */
  datatype Course = Course(id: Option<string>, room: string, courseName: string, block: string, schedules: seq<Schedule>)

  datatype Vacancies = Available | Few | Filled

  /** An open-enrollment promotion; `id` is absent while it is being created. */
  datatype OpenEnrollment = OpenEnrollment(
    id: Option<string>, name: string, workload: int, startDate: string, endDate: string,
    schedule: string, enrollmentUrl: string, vacancies: Vacancies)

  datatype NewsItem = NewsItem(id: string, title: string, content: string, urgent: bool, imageUrl: Option<string>)

  /**
   * The display settings. `layoutOrder` is kept as whatever value was stored
   * (the sanitiser only checks its length); each nested settings object is an
   * open record, because the merge over the defaults keeps every stored field.
   */
  datatype Settings = Settings(
    layoutOrder: Value,
    footerSettings: map<string, Value>,
    openEnrollmentsCarousel: map<string, Value>,
    newsCarousel: map<string, Value>)

  /** The whole persisted data set. `videoUrls` may hold a migrated legacy value of any kind. */
  datatype AppData = AppData(
    openEnrollments: seq<OpenEnrollment>,
    ongoingCourses: seq<Course>,
    newsItems: seq<NewsItem>,
    videoUrls: seq<Value>,
    settings: Settings,
    lastUpdate: int)
}
