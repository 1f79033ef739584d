/**
 * The records of the planner (src/data/types.ts) and its fixed constants
 * (src/data/constants.ts), together with the schedule registry, which the
 * planner reads as an input table.
 */
module Types {
  import opened Wrappers

  /** The six halls of the venue. */
  datatype Hall = Children | Youth | Future | Skills | Career | Makers

  /** Floors 'M', '3', '2' and '1'. */
  datatype Floor = Mezzanine | Third | Second | First

  /** The six interest categories R, I, A, S, E, C. */
  datatype Interest = Realistic | Investigative | Artistic | Social | Enterprising | Conventional

  /** Experience lengths in minutes: 15, 20, 25, 30, 35 or 40. */
  type Duration = d: int | d == 15 || d == 20 || d == 25 || d == 30 || d == 35 || d == 40 witness 15

  /** A session selector: 1 (morning) or 2 (afternoon). */
  type Session = s: int | s == 1 || s == 2 witness 1

  /** One experience room of the catalog; an absent `isPopular` is `false`. */
  datatype Room = Room(
    id: string,
    name: string,
    hall: Hall,
    floor: Floor,
    mapNumber: int,
    duration: Duration,
    minAgeMonths: int,
    joyCurrency: int,
    interestType: seq<Interest>,
    icon: string,
    isPopular: bool)

  /**
   * One itinerary entry: an experience in a room, or a rest period. Times are `HH:MM` text.
   * The planner gives a break the room id "break" and no room; `Break` carries neither.
   */
  datatype CourseItem =
    | Experience(roomId: string, room: Room, startTime: string, endTime: string)
    | Break(startTime: string, endTime: string)

  /** A generated itinerary with its recomputed totals. */
  datatype Course = Course(
    id: string,
    createdAt: int,
    items: seq<CourseItem>,
    totalExperiences: int,
    totalJoy: int,
    totalDuration: int)

  /** The session windows as the planner's constants give them. */
  function SessionStartText(session: Session): string {
    if session == 1 then "09:30" else "14:30"
  }

  function SessionEndText(session: Session): string {
    if session == 1 then "13:30" else "18:30"
  }

  /** Hard cap on generator iterations. */
  const MaxIterations: nat := 20

  /** No new item is attempted once fewer minutes than this remain in the session. */
  const MinRemainingTime: int := 15

  /** Slot start times for one duration: `times1` in session 1, `times2` in session 2. */
  datatype ScheduleEntry = ScheduleEntry(times1: seq<string>, times2: seq<string>)

  /** The schedule table, keyed by duration; a duration may be missing. */
  type Registry = map<Duration, ScheduleEntry>

  /** The slot list a room of `duration` follows in `session`, or `None` when the duration has no schedule. */
  function TimesFor(registry: Registry, duration: Duration, session: Session): (r: Option<seq<string>>)
    ensures r.None? <==> duration !in registry
    ensures r.Some? ==> r.value == (if session == 1 then registry[duration].times1 else registry[duration].times2)
  {
    if duration !in registry then None
    else if session == 1 then Some(registry[duration].times1)
    else Some(registry[duration].times2)
  }
}
