/**
 * What every itinerary `generateCourse` returns satisfies, read off the
 * loop invariant of CourseProperties: the items are chronological and do
 * not overlap, lie inside the session, never repeat a room, place breaks
 * exactly after every `breakInterval`-th experience, pick greedily, and the
 * totals agree with the items. The last sections state when the loop
 * stops and that the times it writes are padded `HH:MM` text.
 *
 * The session bound assumes a non-negative break length, which the
 * generator's only caller guarantees (its choices are 5, 10, 15 and 20).
 */
module CourseTheorems {
  import opened Wrappers
  import opened Types
  import opened Time
  import opened CourseGenerator
  import opened CourseProperties

  // ---------------------------------------------------------------------------
  // Facts about any sequence of well-placed items
  // ---------------------------------------------------------------------------

  lemma ItemAt(ctx: Context, items: seq<CourseItem>, k: nat)
    requires AllOk(ctx, items) && k < |items|
    ensures ItemOk(ctx, items[..k], items[k])
  {
    assert Before(items, k) == items[..k];
  }

  lemma PrevEndBefore(start: int, items: seq<CourseItem>, k: nat)
    requires 0 < k <= |items|
    ensures PrevEnd(start, items[..k]) == EndOf(items[k - 1])
  {
  }

  /** Each item ends no earlier than it starts and no later than where any later item starts. */
  lemma {:induction false} Ordered(ctx: Context, items: seq<CourseItem>, i: nat, j: nat)
    requires AllOk(ctx, items) && i < j < |items|
    ensures EndOf(items[i]) <= StartOf(items[j])
    decreases j - i
  {
    ItemAt(ctx, items, i + 1);
    PrevEndBefore(ctx.start, items, i + 1);
    if i + 1 < j {
      Ordered(ctx, items, i + 1, j);
    }
  }

  /** Every experience's room id is among the used ids. */
  lemma {:induction false} UsedIdsHas(items: seq<CourseItem>, i: nat)
    requires i < |items| && items[i].Experience?
    ensures items[i].room.id in UsedIds(items)
    decreases |items|
  {
    var n := |items|;
    if i < n - 1 {
      UsedIdsHas(items[..n - 1], i);
    }
  }

  /** An id is used exactly when some experience item carries it. */
  lemma {:induction false} UsedIdsOnlyExperiences(items: seq<CourseItem>, id: string)
    requires id in UsedIds(items)
    ensures exists i :: 0 <= i < |items| && items[i].Experience? && items[i].room.id == id
    decreases |items|
  {
    var n := |items|;
    var last := items[n - 1];
    if last.Experience? && last.room.id == id {
      assert items[n - 1].Experience? && items[n - 1].room.id == id;
    } else {
      UsedIdsOnlyExperiences(items[..n - 1], id);
      var i :| 0 <= i < n - 1 && items[..n - 1][i].Experience? && items[..n - 1][i].room.id == id;
      assert items[i] == items[..n - 1][i];
    }
  }

  /** Every item is an experience or a break. */
  lemma {:induction false} CountsAddUp(items: seq<CourseItem>)
    ensures ExperienceCount(items) + BreakCount(items) == |items|
    decreases |items|
  {
    if |items| > 0 {
      CountsAddUp(items[..|items| - 1]);
    }
  }

  /** The joy of the experiences is the joy of all items, breaks counting nothing. */
  lemma {:induction false} JoyOfExperiences(items: seq<CourseItem>)
    ensures JoySum(Experiences(items)) == JoySum(items)
    decreases |items|
  {
    if |items| > 0 {
      var p := items[..|items| - 1];
      var last := items[|items| - 1];
      JoyOfExperiences(p);
      var e := Experiences(p) + (if last.Experience? then [last] else []);
      if last.Experience? {
        assert e[..|e| - 1] == Experiences(p);
      } else {
        assert e == Experiences(p);
      }
    }
  }

  lemma AllOkPrefix(ctx: Context, items: seq<CourseItem>, n: nat)
    requires AllOk(ctx, items) && n <= |items|
    ensures AllOk(ctx, items[..n])
  {
    forall k | 0 <= k < n ensures ItemOk(ctx, Before(items[..n], k), items[..n][k]) {
      assert Before(items[..n], k) == Before(items, k);
    }
  }

  /** An experience lasts its room's duration, a break the configured length. */
  lemma ItemMinutes(ctx: Context, prefix: seq<CourseItem>, x: CourseItem)
    requires ItemOk(ctx, prefix, x)
    ensures EndOf(x) - StartOf(x) == (if x.Experience? then x.room.duration else ctx.breakDuration)
  {
  }

  lemma MulStep(a: int, b: int)
    ensures a * (b + 1) == a * b + a
  {
  }

  /** Item minutes add up to the experienced rooms' durations plus one break length per break. */
  lemma {:induction false} DurationSplits(ctx: Context, items: seq<CourseItem>)
    requires AllOk(ctx, items)
    ensures DurationSum(items) == RoomMinutes(items) + ctx.breakDuration * BreakCount(items)
    decreases |items|
  {
    if |items| > 0 {
      var n := |items|;
      AllOkPrefix(ctx, items, n - 1);
      DurationSplits(ctx, items[..n - 1]);
      ItemAt(ctx, items, n - 1);
      DurationStep(ctx, items);
    }
  }

  /** The last item adds its own length to the total, which the split accounts for. */
  lemma DurationStep(ctx: Context, items: seq<CourseItem>)
    requires |items| > 0 && ItemOk(ctx, items[..|items| - 1], items[|items| - 1])
    ensures DurationSum(items) - RoomMinutes(items) - ctx.breakDuration * BreakCount(items)
         == DurationSum(items[..|items| - 1]) - RoomMinutes(items[..|items| - 1])
            - ctx.breakDuration * BreakCount(items[..|items| - 1])
  {
    var prefix, x := items[..|items| - 1], items[|items| - 1];
    ItemMinutes(ctx, prefix, x);
    SplitStep(DurationSum(items), DurationSum(prefix), RoomMinutes(items), RoomMinutes(prefix),
              BreakCount(items), BreakCount(prefix), ctx.breakDuration, EndOf(x) - StartOf(x),
              if x.Experience? then x.room.duration else 0, x.Break?);
  }

  /** The arithmetic of one item: a break adds one break length, an experience adds its room's minutes. */
  lemma SplitStep(total: int, total0: int, rooms: int, rooms0: int, breaks: int, breaks0: int,
                  breakLength: int, length: int, roomLength: int, isBreak: bool)
    requires total == total0 + length && rooms == rooms0 + roomLength
    requires isBreak ==> breaks == breaks0 + 1 && length == breakLength && roomLength == 0
    requires !isBreak ==> breaks == breaks0 && length == roomLength
    ensures total - rooms - breakLength * breaks == total0 - rooms0 - breakLength * breaks0
  {
    if isBreak {
      MulStep(breakLength, breaks0);
    }
  }

  // ---------------------------------------------------------------------------
  // The generator's output
  // ---------------------------------------------------------------------------

  lemma Generated(registry: Registry, opts: CourseOptions, stamp: nat)
    requires opts.breakDuration >= 0
    ensures var items := GenerateCourse(registry, opts, stamp).items;
      && AllOk(ContextOf(registry, opts), items)
      && ExperienceCount(items) <= MaxIterations
      && |items| <= 2 * MaxIterations
  {
    GeneratedItemsOk(registry, opts, stamp);
  }

  /**
   * Items run forward in time from the current time to the session end:
   * each ends no earlier than it starts, no item starts before an earlier
   * one ends, and none starts before the current time or ends after the
   * session.
   */
  lemma CourseIsChronological(registry: Registry, opts: CourseOptions, stamp: nat)
    requires opts.breakDuration >= 0
    ensures var items := GenerateCourse(registry, opts, stamp).items;
      && (forall k :: 0 <= k < |items| ==>
            TimeToMinutes(opts.currentTime) <= StartOf(items[k]) <= EndOf(items[k]) <= SessionEndMinutes(opts.session))
      && (forall i, j :: 0 <= i < j < |items| ==> EndOf(items[i]) <= StartOf(items[j]))
  {
    var ctx := ContextOf(registry, opts);
    var items := GenerateCourse(registry, opts, stamp).items;
    Generated(registry, opts, stamp);
    forall i, j | 0 <= i < j < |items| ensures EndOf(items[i]) <= StartOf(items[j]) {
      Ordered(ctx, items, i, j);
    }
    forall k | 0 <= k < |items|
      ensures ctx.start <= StartOf(items[k]) <= EndOf(items[k]) <= ctx.sessionEnd
    {
      ItemAt(ctx, items, k);
      ItemAt(ctx, items, 0);
      if k > 0 {
        Ordered(ctx, items, 0, k);
      }
    }
  }

  /** No room is experienced twice, and each experience is listed under its room's id. */
  lemma CourseRoomsDistinct(registry: Registry, opts: CourseOptions, stamp: nat)
    requires opts.breakDuration >= 0
    ensures var items := GenerateCourse(registry, opts, stamp).items;
      && (forall k :: 0 <= k < |items| && items[k].Experience? ==> items[k].roomId == items[k].room.id)
      && (forall i, j :: 0 <= i < j < |items| && items[i].Experience? && items[j].Experience? ==>
            items[i].room.id != items[j].room.id)
  {
    var ctx := ContextOf(registry, opts);
    var items := GenerateCourse(registry, opts, stamp).items;
    Generated(registry, opts, stamp);
    forall k | 0 <= k < |items| && items[k].Experience? ensures items[k].roomId == items[k].room.id {
      ItemAt(ctx, items, k);
    }
    forall i, j | 0 <= i < j < |items| && items[i].Experience? && items[j].Experience?
      ensures items[i].room.id != items[j].room.id
    {
      ItemAt(ctx, items, j);
      assert items[..j][i] == items[i];
      UsedIdsHas(items[..j], i);
    }
  }

  lemma BreakAt(ctx: Context, items: seq<CourseItem>, k: nat)
    requires AllOk(ctx, items) && k < |items| && items[k].Break?
    ensures 0 < k && items[k - 1].Experience?
    ensures StartOf(items[k]) == EndOf(items[k - 1])
    ensures EndOf(items[k]) == StartOf(items[k]) + ctx.breakDuration
    ensures DueForBreak(ctx, ExperienceCount(items[..k]))
  {
    ItemAt(ctx, items, k);
    PrevEndBefore(ctx.start, items, k);
  }

  lemma EndsInExperience(p: seq<CourseItem>)
    requires |p| > 0 && p[|p| - 1].Experience?
    ensures ExperienceCount(p) > 0
  {
    assert Experiences(p) == Experiences(p[..|p| - 1]) + [p[|p| - 1]];
  }

  lemma DueMeansBreak(ctx: Context, items: seq<CourseItem>, k: nat)
    requires AllOk(ctx, items) && 0 < k < |items| && items[k - 1].Experience?
    requires ctx.breakInterval > 0 && ExperienceCount(items[..k]) % ctx.breakInterval == 0
    ensures items[k].Break?
  {
    ItemAt(ctx, items, k);
    assert items[..k][k - 1] == items[k - 1];
    EndsInExperience(items[..k]);
  }

  /**
   * Breaks: a break only ever follows an experience, starts where it ends
   * and lasts the configured length, and comes exactly when the number of
   * experiences so far is a positive multiple of the break interval; with a
   * non-positive interval there is no break at all.
   */
  lemma CourseBreaks(registry: Registry, opts: CourseOptions, stamp: nat)
    requires opts.breakDuration >= 0
    ensures var items := GenerateCourse(registry, opts, stamp).items;
      && (forall k :: 0 <= k < |items| && items[k].Break? ==>
            && 0 < k && items[k - 1].Experience?
            && StartOf(items[k]) == EndOf(items[k - 1])
            && EndOf(items[k]) == StartOf(items[k]) + opts.breakDuration
            && opts.breakInterval > 0
            && ExperienceCount(items[..k]) > 0
            && ExperienceCount(items[..k]) % opts.breakInterval == 0)
      && (forall k :: (0 < k < |items| && items[k - 1].Experience? && opts.breakInterval > 0
                       && ExperienceCount(items[..k]) % opts.breakInterval == 0) ==> items[k].Break?)
      && (opts.breakInterval <= 0 ==> forall k :: 0 <= k < |items| ==> items[k].Experience?)
  {
    var ctx := ContextOf(registry, opts);
    var items := GenerateCourse(registry, opts, stamp).items;
    Generated(registry, opts, stamp);
    forall k | 0 <= k < |items| && items[k].Break?
      ensures 0 < k && items[k - 1].Experience?
      ensures StartOf(items[k]) == EndOf(items[k - 1])
      ensures EndOf(items[k]) == StartOf(items[k]) + ctx.breakDuration
      ensures DueForBreak(ctx, ExperienceCount(items[..k]))
    {
      BreakAt(ctx, items, k);
    }
    forall k | 0 < k < |items| && items[k - 1].Experience? && ctx.breakInterval > 0
      && ExperienceCount(items[..k]) % ctx.breakInterval == 0
      ensures items[k].Break?
    {
      DueMeansBreak(ctx, items, k);
    }
    assert ctx.breakDuration == opts.breakDuration && ctx.breakInterval == opts.breakInterval;
  }

  /**
   * Each experience is the greedy pick at its point: its room is one of the
   * given rooms and was not used before, it offers the slot the item starts at, no unused room offers an
   * earlier first fitting slot, and of the unused rooms offering the same
   * start the picked one comes first in the sorted order.
   */
  lemma CourseIsGreedy(registry: Registry, opts: CourseOptions, stamp: nat)
    requires opts.breakDuration >= 0
    ensures var ctx := ContextOf(registry, opts);
      var items := GenerateCourse(registry, opts, stamp).items;
      forall k :: 0 <= k < |items| && items[k].Experience? ==>
        var used := UsedIds(items[..k]);
        var prev := PrevEnd(ctx.start, items[..k]);
        && items[k].room in opts.rooms

        && items[k].room.id !in used
        && Offer(ctx, items[k].room, prev) == Some(Slot(items[k].startTime, StartOf(items[k])))
        && (forall i :: 0 <= i < |ctx.sorted| && ctx.sorted[i].id !in used && Offer(ctx, ctx.sorted[i], prev).Some? ==>
              && StartOf(items[k]) <= Offer(ctx, ctx.sorted[i], prev).value.startMins
              && (StartOf(items[k]) == Offer(ctx, ctx.sorted[i], prev).value.startMins ==>
                    items[k].room in ctx.sorted[..i + 1]))
  {
    var ctx := ContextOf(registry, opts);
    var items := GenerateCourse(registry, opts, stamp).items;
    Generated(registry, opts, stamp);
    forall k | 0 <= k < |items| && items[k].Experience?
      ensures
        var used := UsedIds(items[..k]);
        var prev := PrevEnd(ctx.start, items[..k]);
        && items[k].room in opts.rooms

        && items[k].room.id !in used
        && Offer(ctx, items[k].room, prev) == Some(Slot(items[k].startTime, StartOf(items[k])))
        && (forall i :: 0 <= i < |ctx.sorted| && ctx.sorted[i].id !in used && Offer(ctx, ctx.sorted[i], prev).Some? ==>
              && StartOf(items[k]) <= Offer(ctx, ctx.sorted[i], prev).value.startMins
              && (StartOf(items[k]) == Offer(ctx, ctx.sorted[i], prev).value.startMins ==>
                    items[k].room in ctx.sorted[..i + 1]))
    {
      ItemAt(ctx, items, k);
      PickIsBest(ctx, UsedIds(items[..k]), PrevEnd(ctx.start, items[..k]), items[k]);
      assert items[k].room in multiset(ctx.sorted);
    }
  }

  /** What `BestAmong` says about the item built from the pick. */
  lemma PickIsBest(ctx: Context, used: set<string>, prev: int, x: CourseItem)
    requires x.Experience?
    requires Select(ctx, used, prev).Some?
    requires Select(ctx, used, prev).value.room == x.room
    requires Select(ctx, used, prev).value.slot.time == x.startTime
    ensures x.room in ctx.sorted
    ensures Offer(ctx, x.room, prev) == Some(Slot(x.startTime, StartOf(x)))
    ensures forall i :: 0 <= i < |ctx.sorted| && ctx.sorted[i].id !in used && Offer(ctx, ctx.sorted[i], prev).Some? ==>
      && StartOf(x) <= Offer(ctx, ctx.sorted[i], prev).value.startMins
      && (StartOf(x) == Offer(ctx, ctx.sorted[i], prev).value.startMins ==>
            x.room in ctx.sorted[..i + 1])
  {
    SelectIsGreedy(ctx, used, prev);
    var c := Select(ctx, used, prev).value;
    forall i | 0 <= i < |ctx.sorted| && ctx.sorted[i].id !in used && Offer(ctx, ctx.sorted[i], prev).Some?
      ensures StartOf(x) == Offer(ctx, ctx.sorted[i], prev).value.startMins ==>
        x.room in ctx.sorted[..i + 1]
    {
      if StartOf(x) == Offer(ctx, ctx.sorted[i], prev).value.startMins {
        assert c.index <= i;
        assert ctx.sorted[..i + 1][c.index] == x.room;
      }
    }
  }

  /**
   * The totals agree with the items: the experiences and breaks make up all
   * items, at most MaxIterations experiences and twice as many items; the
   * duration is the rooms' minutes plus one break length per break; the joy
   * is the experienced rooms' joy.
   */
  lemma CourseTotals(registry: Registry, opts: CourseOptions, stamp: nat)
    requires opts.breakDuration >= 0
    ensures var c := GenerateCourse(registry, opts, stamp);
      && c.totalExperiences + BreakCount(c.items) == |c.items|
      && c.totalExperiences <= MaxIterations
      && |c.items| <= 2 * MaxIterations
      && c.totalDuration == RoomMinutes(c.items) + opts.breakDuration * BreakCount(c.items)
      && c.totalJoy == JoySum(c.items)
  {
    var c := GenerateCourse(registry, opts, stamp);
    Generated(registry, opts, stamp);
    CountsAddUp(c.items);
    DurationSplits(ContextOf(registry, opts), c.items);
    JoyOfExperiences(c.items);
  }

  /** A round never removes items. */
  lemma IterateNeverShrinks(ctx: Context, st: GenState)
    ensures |st.items| <= |Iterate(ctx, st).state.items|
  {
    IterateCases(ctx, st);
  }

  lemma {:induction false} LoopNeverShrinks(step: GenState -> Progress, more: GenState -> bool, st: GenState, iteration: nat)
    requires forall t: GenState :: |t.items| <= |step(t).state.items|
    ensures |st.items| <= |Loop(step, more, st, iteration).items|
    decreases MaxIterations - iteration
  {
    if iteration < MaxIterations && more(st) && step(st).Continue? {
      LoopNeverShrinks(step, more, step(st).state, iteration + 1);
    }
  }

  /**
   * The course is empty exactly when the loop never starts (fewer than
   * MinRemainingTime minutes left, or none at all) or its first pick finds
   * no room (or the picked slot text is empty).
   */
  lemma CourseEmptyIff(registry: Registry, opts: CourseOptions, stamp: nat)
    ensures var ctx := ContextOf(registry, opts);
      var c := GenerateCourse(registry, opts, stamp);
      |c.items| == 0 <==>
        || ctx.start >= ctx.sessionEnd - MinRemainingTime
        || Select(ctx, {}, ctx.start).None?
        || Select(ctx, {}, ctx.start).value.slot.time == ""
  {
    var ctx := ContextOf(registry, opts);
    var init := GenState([], {}, ctx.start, 0);
    assert GenerateCourse(registry, opts, stamp).items == Loop(Step(ctx), More(ctx), init, 0).items;
    if More(ctx)(init) {
      assert Step(ctx)(init) == Iterate(ctx, init);
      IterateCases(ctx, init);
      var p := PickExperience(ctx, init);
      if p.Continue? {
        forall t: GenState ensures |t.items| <= |Step(ctx)(t).state.items| {
          IterateNeverShrinks(ctx, t);
        }
        LoopNeverShrinks(Step(ctx), More(ctx), p.state, 1);
      }
    }
  }

  /** When no room offers a slot at the current time, the course is empty and every total is zero. */
  lemma NoSlotNoCourse(registry: Registry, opts: CourseOptions, stamp: nat)
    requires forall r :: r in opts.rooms ==> Offer(ContextOf(registry, opts), r, TimeToMinutes(opts.currentTime)).None?
    ensures var c := GenerateCourse(registry, opts, stamp);
      c.items == [] && c.totalExperiences == 0 && c.totalJoy == 0 && c.totalDuration == 0
  {
    var ctx := ContextOf(registry, opts);
    CourseEmptyIff(registry, opts, stamp);
    PickIsOffered(ctx, {}, ctx.start);
    SortedAreRooms(opts.rooms, opts.preferredRooms);
  }

  /** A pick is one of the sorted rooms, with the slot it offers. */
  lemma PickIsOffered(ctx: Context, used: set<string>, lastEnd: int)
    ensures Select(ctx, used, lastEnd).Some? ==>
      && Select(ctx, used, lastEnd).value.room in ctx.sorted
      && Offer(ctx, Select(ctx, used, lastEnd).value.room, lastEnd) == Some(Select(ctx, used, lastEnd).value.slot)
  {
    SelectIsGreedy(ctx, used, lastEnd);
  }

  /** Sorting keeps exactly the same rooms. */
  lemma SortedAreRooms(rooms: seq<Room>, preferred: seq<string>)
    ensures forall r :: r in SortRooms(rooms, preferred) <==> r in rooms
  {
    var sorted := SortRooms(rooms, preferred);
    forall r ensures r in sorted <==> r in rooms {
      assert r in sorted <==> r in multiset(sorted);
      assert r in rooms <==> r in multiset(rooms);
    }
  }

  // ---------------------------------------------------------------------------
  // When the loop stops
  // ---------------------------------------------------------------------------

  /** The pick finds nothing: no unused room offers a slot, or the picked slot text is empty. */
  predicate NoPick(ctx: Context, st: GenState) {
    Select(ctx, st.usedRoomIds, st.lastEnd).None? || Select(ctx, st.usedRoomIds, st.lastEnd).value.slot.time == ""
  }

  /**
   * Where a loop run ends: the round `k` and state `last` it reached. Either
   * the loop test failed there, or that round's step stopped the loop.
   */
  lemma {:induction false} LoopEnd(step: GenState -> Progress, more: GenState -> bool, inv: (GenState, nat) -> bool,
                                   st: GenState, iteration: nat)
    returns (last: GenState, k: nat)
    requires forall s: GenState, i: nat ::
      inv(s, i) && i < MaxIterations && more(s) && step(s).Continue? ==> inv(step(s).state, i + 1)
    requires inv(st, iteration) && iteration <= MaxIterations
    ensures inv(last, k) && k <= MaxIterations
    ensures
      || ((k == MaxIterations || !more(last)) && Loop(step, more, st, iteration) == last)
      || (k < MaxIterations && more(last) && step(last).Stop? && Loop(step, more, st, iteration) == step(last).state)
    decreases MaxIterations - iteration
  {
    if iteration < MaxIterations && more(st) && step(st).Continue? {
      last, k := LoopEnd(step, more, inv, step(st).state, iteration + 1);
    } else {
      last, k := st, iteration;
    }
  }

  /** A round that goes on adds exactly one experience and ends on it. */
  lemma IterateContinues(ctx: Context, st: GenState)
    requires Iterate(ctx, st).Continue?
    ensures Settled(Iterate(ctx, st).state)
    ensures Iterate(ctx, st).state.experienceCount == st.experienceCount + 1
  {
    IterateCases(ctx, st);
  }

  /**
   * A round that stops does so for one of three reasons: a due break would
   * reach the session end; no break is due and the pick finds nothing; or
   * the break was added and the pick after it finds nothing.
   */
  lemma IterateStops(ctx: Context, st: GenState)
    requires Iterate(ctx, st).Stop?
    ensures var t := Iterate(ctx, st).state;
      || (t == st && DueForBreak(ctx, st.experienceCount) && st.lastEnd + ctx.breakDuration >= ctx.sessionEnd)
      || (t == st && !DueForBreak(ctx, st.experienceCount) && NoPick(ctx, st))
      || (t == AfterBreak(ctx, st) && DueForBreak(ctx, st.experienceCount) && NoPick(ctx, t))
  {
    IterateCases(ctx, st);
  }

  /**
   * A generated course stops only when it must. Its final loop state either
   * ends on an experience or is empty, and then twenty experiences were
   * placed, or at most MinRemainingTime minutes remain, or a due break
   * would reach the session end, or no break is due and no room can be
   * picked; or it ends on a break, after which no room can be picked.
   */
  lemma CourseStopsOnlyWhenStuck(registry: Registry, opts: CourseOptions, stamp: nat)
    ensures var ctx := ContextOf(registry, opts);
      var s := Run(ctx, GenState([], {}, ctx.start, 0), 0);
      && GenerateCourse(registry, opts, stamp).items == s.items
      && (Settled(s) ==>
            || s.experienceCount == MaxIterations
            || s.lastEnd >= ctx.sessionEnd - MinRemainingTime
            || (DueForBreak(ctx, s.experienceCount) && s.lastEnd + ctx.breakDuration >= ctx.sessionEnd)
            || (!DueForBreak(ctx, s.experienceCount) && NoPick(ctx, s)))
      && (!Settled(s) ==> s.items[|s.items| - 1].Break? && NoPick(ctx, s))
  {
    var ctx := ContextOf(registry, opts);
    var init := GenState([], {}, ctx.start, 0);
    var inv := (t: GenState, i: nat) => Settled(t) && t.experienceCount == i;
    forall t: GenState, i: nat | inv(t, i) && i < MaxIterations && More(ctx)(t) && Step(ctx)(t).Continue?
      ensures inv(Step(ctx)(t).state, i + 1)
    {
      IterateContinues(ctx, t);
    }
    var last, k := LoopEnd(Step(ctx), More(ctx), inv, init, 0);
    var s := Run(ctx, init, 0);
    if k < MaxIterations && More(ctx)(last) && Step(ctx)(last).Stop? {
      FinalRoundStops(ctx, last);
    }
  }

  /** The state a stopping round leaves, in the terms of `CourseStopsOnlyWhenStuck`. */
  lemma FinalRoundStops(ctx: Context, st: GenState)
    requires Settled(st) && Iterate(ctx, st).Stop?
    ensures var s := Iterate(ctx, st).state;
      && (Settled(s) ==>
            || (DueForBreak(ctx, s.experienceCount) && s.lastEnd + ctx.breakDuration >= ctx.sessionEnd)
            || (!DueForBreak(ctx, s.experienceCount) && NoPick(ctx, s)))
      && (!Settled(s) ==> s.items[|s.items| - 1].Break? && NoPick(ctx, s))
  {
    IterateStops(ctx, st);
    var b := AfterBreak(ctx, st);
    assert b.items[|b.items| - 1].Break?;
  }

  // ---------------------------------------------------------------------------
  // The times the generator writes
  // ---------------------------------------------------------------------------

  /** The times the generator formats itself are the padded `HH:MM` text of their minutes. */
  predicate ClockItem(x: CourseItem) {
    && x.endTime == MinutesToTime(EndOf(x))
    && (x.Break? ==> x.startTime == MinutesToTime(StartOf(x)))
  }

  predicate ClockItems(items: seq<CourseItem>) {
    forall k :: 0 <= k < |items| ==> ClockItem(items[k])
  }

  lemma PickKeepsClock(ctx: Context, st: GenState)
    requires ClockItems(st.items)
    ensures ClockItems(PickExperience(ctx, st).state.items)
  {
    match Select(ctx, st.usedRoomIds, st.lastEnd)
    case None =>
    case Some(c) =>
      if c.slot.time != "" {
        FormatIsStable(c.slot.startMins + c.room.duration);
        var items := PickExperience(ctx, st).state.items;
        assert items[..|st.items|] == st.items;
        assert ClockItem(items[|st.items|]);
      }
  }

  lemma IterateKeepsClock(ctx: Context, st: GenState)
    requires ClockItems(st.items)
    ensures ClockItems(Iterate(ctx, st).state.items)
  {
    IterateCases(ctx, st);
    if !DueForBreak(ctx, st.experienceCount) {
      PickKeepsClock(ctx, st);
    } else if st.lastEnd + ctx.breakDuration < ctx.sessionEnd {
      BreakKeepsClock(ctx, st);
      PickKeepsClock(ctx, AfterBreak(ctx, st));
    }
  }

  lemma BreakKeepsClock(ctx: Context, st: GenState)
    requires ClockItems(st.items)
    ensures ClockItems(AfterBreak(ctx, st).items)
  {
    var b := AfterBreak(ctx, st);
    FormatIsStable(st.lastEnd);
    FormatIsStable(st.lastEnd + ctx.breakDuration);
    assert b.items[..|st.items|] == st.items;
    assert ClockItem(b.items[|st.items|]);
  }

  /**
   * Every end time of a generated course, and the start time of every break,
   * is the zero-padded `HH:MM` text of its minute, as `minutesToTime` writes
   * it; an experience's start time is its slot text, kept as written.
   */
  lemma CourseTimesAreClockText(registry: Registry, opts: CourseOptions, stamp: nat)
    ensures var items := GenerateCourse(registry, opts, stamp).items;
      forall k :: 0 <= k < |items| ==>
        && items[k].endTime == MinutesToTime(EndOf(items[k]))
        && (items[k].Break? ==> items[k].startTime == MinutesToTime(StartOf(items[k])))
  {
    var ctx := ContextOf(registry, opts);
    var init := GenState([], {}, ctx.start, 0);
    var inv := (t: GenState, i: nat) => ClockItems(t.items);
    forall t: GenState, i: nat | inv(t, i) && i < MaxIterations && More(ctx)(t) && Step(ctx)(t).Continue?
      ensures inv(Step(ctx)(t).state, i + 1)
    {
      IterateKeepsClock(ctx, t);
    }
    var last, k := LoopEnd(Step(ctx), More(ctx), inv, init, 0);
    if k < MaxIterations && More(ctx)(last) && Step(ctx)(last).Stop? {
      IterateKeepsClock(ctx, last);
    }
    assert GenerateCourse(registry, opts, stamp).items == Run(ctx, init, 0).items;
  }
}
