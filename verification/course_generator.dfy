/**
 * The greedy itinerary generator (src/utils/courseGenerator.ts).
 *
 * Rooms are stable-sorted (preferred first, then popular, then input
 * order). Each iteration, while fewer than 20 iterations have run and the
 * last end is more than 15 minutes before the session end, it may first
 * insert a break (every `breakInterval` experiences), then offers every
 * unused room its first slot that fits, and takes the room whose slot
 * leaves the strictly smallest wait, so that ties go to the earlier room.
 * The totals are recomputed from the final items.
 */
module CourseGenerator {
  import opened Wrappers
  import opened Digits
  import opened Types
  import opened Time
  import opened Sorting

  /** The generator's inputs; `rooms` has already been filtered by hall and age by the caller. */
  datatype CourseOptions = CourseOptions(
    currentTime: string,
    session: Session,
    preferredRooms: seq<string>,
    breakInterval: int,
    breakDuration: int,
    rooms: seq<Room>)

  // ---------------------------------------------------------------------------
  // The pre-sort
  // ---------------------------------------------------------------------------

  /** The planner's room comparator, `generateCourse`'s sort callback. */
  function CompareRooms(a: Room, b: Room, preferred: seq<string>): int {
    var aPreferred := if a.id in preferred then 0 else 1;
    var bPreferred := if b.id in preferred then 0 else 1;
    if aPreferred != bPreferred then aPreferred - bPreferred
    else if a.isPopular && !b.isPopular then -1
    else if !a.isPopular && b.isPopular then 1
    else 0
  }

  /** 0: preferred and popular, 1: preferred, 2: popular, 3: neither. */
  function Rank(room: Room, preferred: seq<string>): int {
    (if room.id in preferred then 0 else 2) + (if room.isPopular then 0 else 1)
  }

  function RankKey(preferred: seq<string>): Room -> int {
    room => Rank(room, preferred)
  }

  /** The comparator orders rooms exactly as their ranks do. */
  lemma CompareRoomsIsRankOrder(a: Room, b: Room, preferred: seq<string>)
    ensures CompareRooms(a, b, preferred) < 0 <==> Rank(a, preferred) < Rank(b, preferred)
    ensures CompareRooms(a, b, preferred) == 0 <==> Rank(a, preferred) == Rank(b, preferred)
    ensures CompareRooms(a, b, preferred) > 0 <==> Rank(a, preferred) > Rank(b, preferred)
  {
  }

  /**
   * The planner's stable sort: a permutation of the rooms with every
   * preferred room before every other, and within equal preference every
   * popular room before every other.
   */
  function SortRooms(rooms: seq<Room>, preferred: seq<string>): (r: seq<Room>)
    ensures |r| == |rooms| && multiset(r) == multiset(rooms)
    ensures forall i, j :: 0 <= i < j < |r| && r[j].id in preferred ==> r[i].id in preferred
    ensures forall i, j :: 0 <= i < j < |r| && (r[i].id in preferred <==> r[j].id in preferred) && r[j].isPopular ==>
      r[i].isPopular
  {
    var r := SortBy(rooms, RankKey(preferred));
    assert forall i, j :: 0 <= i < j < |r| ==> Rank(r[i], preferred) <= Rank(r[j], preferred) by {
      assert SortedBy(r, RankKey(preferred));
    }
    r
  }

  /** Rooms of equal rank keep their input order. */
  lemma SortRoomsIsStable(rooms: seq<Room>, preferred: seq<string>, k: int)
    ensures WithKey(SortRooms(rooms, preferred), RankKey(preferred), k) == WithKey(rooms, RankKey(preferred), k)
  {
    SortByIsStable(rooms, RankKey(preferred), k);
  }

  // ---------------------------------------------------------------------------
  // Candidate slots and the greedy pick
  // ---------------------------------------------------------------------------

  /** The fixed parameters of one generator run. */
  datatype Context = Context(
    registry: Registry,
    session: Session,
    sessionEnd: int,
    breakInterval: int,
    breakDuration: int,
    sorted: seq<Room>,
    start: int)

  /** The run's parameters: the session end in minutes, the start time parsed, the rooms pre-sorted. */
  function ContextOf(registry: Registry, opts: CourseOptions): (ctx: Context)
    ensures ctx.registry == registry && ctx.session == opts.session
    ensures ctx.sessionEnd == (if opts.session == 1 then 810 else 1110)
    ensures ctx.start == TimeToMinutes(opts.currentTime) && 0 <= ctx.start <= LastMinute
    ensures ctx.breakInterval == opts.breakInterval && ctx.breakDuration == opts.breakDuration
    ensures ctx.sorted == SortRooms(opts.rooms, opts.preferredRooms)
  {
    Context(registry, opts.session, SessionEndMinutes(opts.session), opts.breakInterval, opts.breakDuration,
            SortRooms(opts.rooms, opts.preferredRooms), TimeToMinutes(opts.currentTime))
  }

  /** A slot fits when it starts no earlier than `lastEnd` and the experience ends by the session end. */
  predicate Fits(time: string, duration: int, lastEnd: int, sessionEnd: int) {
    TimeToMinutes(time) >= lastEnd && TimeToMinutes(time) + duration <= sessionEnd
  }

  /** The inner scan: the least index from `i` on whose slot fits. */
  function FirstFit(times: seq<string>, duration: int, lastEnd: int, sessionEnd: int, i: nat): (r: Option<nat>)
    requires i <= |times|
    ensures r.Some? ==>
      && i <= r.value < |times|
      && Fits(times[r.value], duration, lastEnd, sessionEnd)
      && forall j :: i <= j < r.value ==> !Fits(times[j], duration, lastEnd, sessionEnd)
    ensures r.None? ==> forall j :: i <= j < |times| ==> !Fits(times[j], duration, lastEnd, sessionEnd)
    decreases |times| - i
  {
    if i == |times| then None
    else if Fits(times[i], duration, lastEnd, sessionEnd) then Some(i)
    else FirstFit(times, duration, lastEnd, sessionEnd, i + 1)
  }

  /** A slot as text and in minutes. */
  datatype Slot = Slot(time: string, startMins: int)

  /** Slot `i` is the first of `times` that fits. */
  predicate FirstFitting(times: seq<string>, i: int, duration: int, lastEnd: int, sessionEnd: int) {
    && 0 <= i < |times|
    && Fits(times[i], duration, lastEnd, sessionEnd)
    && forall j :: 0 <= j < i ==> !Fits(times[j], duration, lastEnd, sessionEnd)
  }

  /** The one slot a room offers after `lastEnd`: its first fitting slot, if any. */
  function Offer(ctx: Context, room: Room, lastEnd: int): (r: Option<Slot>)
    ensures r.Some? ==>
      && TimeToMinutes(r.value.time) == r.value.startMins
      && lastEnd <= r.value.startMins
      && r.value.startMins + room.duration <= ctx.sessionEnd
  {
    match TimesFor(ctx.registry, room.duration, ctx.session)
    case None => None
    case Some(times) =>
      match FirstFit(times, room.duration, lastEnd, ctx.sessionEnd, 0)
      case None => None
      case Some(i) => Some(Slot(times[i], TimeToMinutes(times[i])))
  }

  /**
   * The offered slot is the room's first slot that fits, scanning its list
   * in order; there is no offer exactly when the room's duration has no
   * schedule or none of its slots fits.
   */
  lemma OfferIsFirstFit(ctx: Context, room: Room, lastEnd: int)
    ensures var r := Offer(ctx, room, lastEnd);
      r.Some? ==>
        && TimesFor(ctx.registry, room.duration, ctx.session).Some?
        && exists i :: FirstFitting(TimesFor(ctx.registry, room.duration, ctx.session).value, i,
                                    room.duration, lastEnd, ctx.sessionEnd)
                    && r.value.time == TimesFor(ctx.registry, room.duration, ctx.session).value[i]
    ensures Offer(ctx, room, lastEnd).None? <==>
      || TimesFor(ctx.registry, room.duration, ctx.session).None?
      || forall j :: 0 <= j < |TimesFor(ctx.registry, room.duration, ctx.session).value| ==>
           !Fits(TimesFor(ctx.registry, room.duration, ctx.session).value[j], room.duration, lastEnd, ctx.sessionEnd)
  {
  }

  /** A picked room: its position in the sorted list, the room and its slot. */
  datatype Choice = Choice(index: nat, room: Room, slot: Slot)

  function Wait(slot: Slot, lastEnd: int): int {
    slot.startMins - lastEnd
  }

  /**
   * `best` is the greedy pick among the first `n` sorted rooms: an unused
   * room whose offered wait is minimal, strictly smaller than that of every
   * earlier candidate; `None` when no unused room among them offers a slot.
   */
  ghost predicate BestAmong(ctx: Context, used: set<string>, lastEnd: int, n: nat, best: Option<Choice>) {
    && n <= |ctx.sorted|
    && match best
       case None =>
         forall j :: 0 <= j < n ==> ctx.sorted[j].id in used || Offer(ctx, ctx.sorted[j], lastEnd).None?
       case Some(c) =>
         && c.index < n
         && ctx.sorted[c.index] == c.room
         && c.room.id !in used
         && Offer(ctx, c.room, lastEnd) == Some(c.slot)
         && forall j :: 0 <= j < n && ctx.sorted[j].id !in used && Offer(ctx, ctx.sorted[j], lastEnd).Some? ==>
              && Wait(c.slot, lastEnd) <= Wait(Offer(ctx, ctx.sorted[j], lastEnd).value, lastEnd)
              && (j < c.index ==> Wait(c.slot, lastEnd) < Wait(Offer(ctx, ctx.sorted[j], lastEnd).value, lastEnd))
  }

  /** One pass of the candidate loop body: skip used rooms and rooms without a slot, keep a strictly better wait. */
  function Consider(ctx: Context, used: set<string>, lastEnd: int, i: nat, best: Option<Choice>): Option<Choice>
    requires i < |ctx.sorted|
  {
    var room := ctx.sorted[i];
    if room.id in used then best
    else
      match Offer(ctx, room, lastEnd)
      case None => best
      case Some(slot) =>
        if best.None? || Wait(slot, lastEnd) < Wait(best.value.slot, lastEnd) then Some(Choice(i, room, slot))
        else best
  }

  lemma ConsiderKeepsBest(ctx: Context, used: set<string>, lastEnd: int, i: nat, best: Option<Choice>)
    requires i < |ctx.sorted| && BestAmong(ctx, used, lastEnd, i, best)
    ensures BestAmong(ctx, used, lastEnd, i + 1, Consider(ctx, used, lastEnd, i, best))
  {
  }

  /** The candidate loop from position `i`, carrying the best pick so far. */
  function SelectFrom(ctx: Context, used: set<string>, lastEnd: int, i: nat, best: Option<Choice>): Option<Choice>
    requires i <= |ctx.sorted|
    decreases |ctx.sorted| - i
  {
    if i == |ctx.sorted| then best
    else SelectFrom(ctx, used, lastEnd, i + 1, Consider(ctx, used, lastEnd, i, best))
  }

  /** The greedy pick over all sorted rooms. */
  function Select(ctx: Context, used: set<string>, lastEnd: int): Option<Choice> {
    SelectFrom(ctx, used, lastEnd, 0, None)
  }

  /** Any property of the carried pick that each candidate step keeps holds once every room is considered. */
  lemma {:induction false} SelectFromKeeps(ctx: Context, used: set<string>, lastEnd: int, i: nat, best: Option<Choice>,
                                           inv: (nat, Option<Choice>) -> bool)
    requires i <= |ctx.sorted|
    requires forall k: nat, b :: k < |ctx.sorted| && inv(k, b) ==> inv(k + 1, Consider(ctx, used, lastEnd, k, b))
    requires inv(i, best)
    ensures inv(|ctx.sorted|, SelectFrom(ctx, used, lastEnd, i, best))
    decreases |ctx.sorted| - i
  {
    if i < |ctx.sorted| {
      SelectFromKeeps(ctx, used, lastEnd, i + 1, Consider(ctx, used, lastEnd, i, best), inv);
    }
  }

  /**
   * The pick is greedy: an unused room whose first fitting slot has the
   * least wait, earliest in sorted order among equal waits; `None` exactly
   * when no unused room has a fitting slot.
   */
  lemma SelectIsGreedy(ctx: Context, used: set<string>, lastEnd: int)
    ensures BestAmong(ctx, used, lastEnd, |ctx.sorted|, Select(ctx, used, lastEnd))
  {
    var inv := (k: nat, b: Option<Choice>) => BestAmong(ctx, used, lastEnd, k, b);
    forall k: nat, b | k < |ctx.sorted| && inv(k, b) ensures inv(k + 1, Consider(ctx, used, lastEnd, k, b)) {
      ConsiderKeepsBest(ctx, used, lastEnd, k, b);
    }
    SelectFromKeeps(ctx, used, lastEnd, 0, None, inv);
  }

  // ---------------------------------------------------------------------------
  // The main loop
  // ---------------------------------------------------------------------------

  /** The loop state: items so far, used room ids, the last end minute and the experiences so far. */
  datatype GenState = GenState(items: seq<CourseItem>, usedRoomIds: set<string>, lastEnd: int, experienceCount: nat)

  /** The result of one iteration: go on, or leave the loop with this state. */
  datatype Progress = Continue(state: GenState) | Stop(state: GenState)

  predicate DueForBreak(ctx: Context, experienceCount: nat) {
    ctx.breakInterval > 0 && experienceCount > 0 && experienceCount % ctx.breakInterval == 0
  }

  /** Second half of an iteration: append the greedy pick, or stop when there is none. */
  function PickExperience(ctx: Context, st: GenState): Progress {
    match Select(ctx, st.usedRoomIds, st.lastEnd)
    case None => Stop(st)
    case Some(c) =>
      if c.slot.time == "" then Stop(st)
      else
        var roomEnd := c.slot.startMins + c.room.duration;
        var item := Experience(c.room.id, c.room, c.slot.time, MinutesToTime(roomEnd));
        Continue(GenState(st.items + [item], st.usedRoomIds + {c.room.id}, roomEnd, st.experienceCount + 1))
  }

  /** One iteration: the break check (stopping if the break would reach the session end), then the pick. */
  function Iterate(ctx: Context, st: GenState): Progress {
    if DueForBreak(ctx, st.experienceCount) then
      var breakEnd := st.lastEnd + ctx.breakDuration;
      if breakEnd >= ctx.sessionEnd then Stop(st)
      else
        var item := Break(MinutesToTime(st.lastEnd), MinutesToTime(breakEnd));
        PickExperience(ctx, GenState(st.items + [item], st.usedRoomIds, breakEnd, st.experienceCount))
    else PickExperience(ctx, st)
  }

  /**
   * The `for` loop: while fewer than MaxIterations rounds have run and
   * `more` holds, take one `step`; a `Stop` leaves the loop. The state in
   * the decreases clause adds nothing to termination; it keeps the verifier
   * from unrolling all twenty rounds when the round number is a literal.
   */
  function Loop(step: GenState -> Progress, more: GenState -> bool, st: GenState, iteration: nat): GenState
    decreases MaxIterations - iteration, st
  {
    if iteration >= MaxIterations || !more(st) then st
    else
      match step(st)
      case Stop(s) => s
      case Continue(s) => Loop(step, more, s, iteration + 1)
  }

  /** One round of the generator's loop. */
  function Step(ctx: Context): GenState -> Progress {
    (s: GenState) => Iterate(ctx, s)
  }

  /** The loop's time test: strictly more than MinRemainingTime minutes remain. */
  function More(ctx: Context): GenState -> bool {
    (s: GenState) => s.lastEnd < ctx.sessionEnd - MinRemainingTime
  }

  /** The generator's loop. */
  function Run(ctx: Context, st: GenState, iteration: nat): GenState {
    Loop(Step(ctx), More(ctx), st, iteration)
  }

  // ---------------------------------------------------------------------------
  // Totals
  // ---------------------------------------------------------------------------

  function StartOf(item: CourseItem): int {
    TimeToMinutes(item.startTime)
  }

  function EndOf(item: CourseItem): int {
    TimeToMinutes(item.endTime)
  }

  /** The experience items, in order. */
  function Experiences(items: seq<CourseItem>): (r: seq<CourseItem>)
    ensures |r| <= |items|
    ensures forall x :: x in r ==> x.Experience? && x in items
    decreases |items|
  {
    if |items| == 0 then []
    else
      var last := items[|items| - 1];
      Experiences(items[..|items| - 1]) + (if last.Experience? then [last] else [])
  }

  /** The joy of the experience items added up; a break adds nothing. */
  function JoySum(items: seq<CourseItem>): int
    decreases |items|
  {
    if |items| == 0 then 0
    else
      var last := items[|items| - 1];
      JoySum(items[..|items| - 1]) + (if last.Experience? then last.room.joyCurrency else 0)
  }

  /** The minutes from start to end of every item, added up. */
  function DurationSum(items: seq<CourseItem>): int
    decreases |items|
  {
    if |items| == 0 then 0
    else
      var last := items[|items| - 1];
      DurationSum(items[..|items| - 1]) + (EndOf(last) - StartOf(last))
  }

  /**
   * `generateCourse`. The wall-clock reads for the id and the creation
   * time are replaced by the `stamp` argument.
   */
  function GenerateCourse(registry: Registry, opts: CourseOptions, stamp: nat): (c: Course)
    ensures c.id == DecimalText(stamp) && c.createdAt == stamp
  {
    var ctx := ContextOf(registry, opts);
    var final := Run(ctx, GenState([], {}, ctx.start, 0), 0);
    var experiences := Experiences(final.items);
    Course(DecimalText(stamp), stamp, final.items, |experiences|, JoySum(experiences), DurationSum(final.items))
  }
}
