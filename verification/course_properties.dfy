/**
 * What every course the generator returns satisfies: chronological
 * non-overlapping items, distinct rooms, items inside the session, breaks
 * of the configured length that only follow experiences, bounded work,
 * greedy picks, and totals that match the items.
 *
 * The proofs carry one invariant through the loop: every item is "well
 * placed" relative to the items before it (`ItemOk`).
 */
module CourseProperties {
  import opened Wrappers
  import opened Types
  import opened Time
  import opened CourseGenerator

  /** Where the item after `prefix` may start: the end of the last item, or the start time. */
  function PrevEnd(start: int, prefix: seq<CourseItem>): int {
    if |prefix| == 0 then start else EndOf(prefix[|prefix| - 1])
  }

  /** The room ids of the experience items. */
  function UsedIds(items: seq<CourseItem>): set<string>
    decreases |items|
  {
    if |items| == 0 then {}
    else
      var last := items[|items| - 1];
      UsedIds(items[..|items| - 1]) + (if last.Experience? then {last.room.id} else {})
  }

  function ExperienceCount(items: seq<CourseItem>): nat {
    |Experiences(items)|
  }

  function BreakCount(items: seq<CourseItem>): nat
    decreases |items|
  {
    if |items| == 0 then 0
    else BreakCount(items[..|items| - 1]) + (if items[|items| - 1].Break? then 1 else 0)
  }

  /** Sum of the durations of the experienced rooms. */
  function RoomMinutes(items: seq<CourseItem>): int
    decreases |items|
  {
    if |items| == 0 then 0
    else
      var last := items[|items| - 1];
      RoomMinutes(items[..|items| - 1]) + (if last.Experience? then last.room.duration else 0)
  }

  /** An item opens an iteration when it is a break, the first item, or follows an experience. */
  predicate OpensIteration(prefix: seq<CourseItem>, x: CourseItem) {
    x.Break? || |prefix| == 0 || prefix[|prefix| - 1].Experience?
  }

  /** The conditions item `x` meets when it is appended after `prefix`. */
  ghost predicate ItemOk(ctx: Context, prefix: seq<CourseItem>, x: CourseItem) {
    var prev := PrevEnd(ctx.start, prefix);
    && prev <= StartOf(x) <= EndOf(x)
    && (OpensIteration(prefix, x) ==> prev < ctx.sessionEnd - MinRemainingTime)
    && match x
       case Experience(id, room, startTime, _) =>
         && id == room.id
         && EndOf(x) == StartOf(x) + room.duration
         && EndOf(x) <= ctx.sessionEnd
         && room.id !in UsedIds(prefix)
         && (|prefix| == 0 || prefix[|prefix| - 1].Experience? ==> !DueForBreak(ctx, ExperienceCount(prefix)))
         && Select(ctx, UsedIds(prefix), prev).Some?
         && Select(ctx, UsedIds(prefix), prev).value.room == room
         && Select(ctx, UsedIds(prefix), prev).value.slot.time == startTime
       case Break(_, _) =>
         && StartOf(x) == prev
         && EndOf(x) == prev + ctx.breakDuration
         && EndOf(x) < ctx.sessionEnd
         && |prefix| > 0 && prefix[|prefix| - 1].Experience?
         && DueForBreak(ctx, ExperienceCount(prefix))
  }

  /** The first `k` items; the name keeps the prefixes the invariant talks about apart from other slices. */
  ghost function Before(items: seq<CourseItem>, k: nat): seq<CourseItem>
    requires k <= |items|
  {
    items[..k]
  }

  /** Every item from position `n` on is well placed after the items before it. */
  ghost predicate OkFrom(ctx: Context, items: seq<CourseItem>, n: nat) {
    forall k {:trigger Before(items, k)} :: n <= k < |items| ==> ItemOk(ctx, Before(items, k), items[k])
  }

  ghost predicate AllOk(ctx: Context, items: seq<CourseItem>) {
    OkFrom(ctx, items, 0)
  }

  /** The loop's bookkeeping agrees with the items. */
  ghost predicate Tracks(ctx: Context, st: GenState) {
    && st.lastEnd == PrevEnd(ctx.start, st.items)
    && st.usedRoomIds == UsedIds(st.items)
    && st.experienceCount == ExperienceCount(st.items)
    && 0 <= st.lastEnd <= LastMinute
  }

  /** Between iterations the items are empty or end with an experience. */
  predicate Settled(st: GenState) {
    |st.items| == 0 || st.items[|st.items| - 1].Experience?
  }

  ghost predicate ContextOk(ctx: Context) {
    && ctx.breakDuration >= 0
    && 0 <= ctx.start <= LastMinute
    && 0 <= ctx.sessionEnd <= 1110
  }

  /** `st'` extends `st` by well-placed items. */
  ghost predicate Extends(ctx: Context, st: GenState, st': GenState) {
    && |st.items| <= |st'.items|
    && st'.items[..|st.items|] == st.items
    && OkFrom(ctx, st'.items, |st.items|)
  }

  lemma ExtendKeepsAllOk(ctx: Context, items: seq<CourseItem>, items': seq<CourseItem>)
    requires AllOk(ctx, items)
    requires |items| <= |items'| && items'[..|items|] == items && OkFrom(ctx, items', |items|)
    ensures AllOk(ctx, items')
  {
    forall k | 0 <= k < |items| ensures ItemOk(ctx, Before(items', k), items'[k]) {
      assert Before(items', k) == Before(items, k);
      assert items'[k] == items[k];
    }
  }

  lemma AppendCounts(items: seq<CourseItem>, x: CourseItem)
    ensures (items + [x])[..|items|] == items
    ensures UsedIds(items + [x]) == UsedIds(items) + (if x.Experience? then {x.room.id} else {})
    ensures ExperienceCount(items + [x]) == ExperienceCount(items) + (if x.Experience? then 1 else 0)
  {
    assert (items + [x])[..|items|] == items;
  }

  lemma AppendOne(ctx: Context, items: seq<CourseItem>, x: CourseItem)
    requires ItemOk(ctx, items, x)
    ensures OkFrom(ctx, items + [x], |items|)
  {
    assert Before(items + [x], |items|) == items;
  }

  /** The experience item the generator appends for pick `ch`. */
  function PickedItem(ch: Choice): CourseItem {
    Experience(ch.room.id, ch.room, ch.slot.time, MinutesToTime(ch.slot.startMins + ch.room.duration))
  }

  lemma PickStep(ctx: Context, st: GenState, ch: Choice)
    requires Select(ctx, st.usedRoomIds, st.lastEnd) == Some(ch) && ch.slot.time != ""
    ensures PickExperience(ctx, st) ==
      Continue(GenState(st.items + [PickedItem(ch)], st.usedRoomIds + {ch.room.id},
                        ch.slot.startMins + ch.room.duration, st.experienceCount + 1))
  {
  }

  lemma PickedItemOk(ctx: Context, st: GenState, ch: Choice)
    requires ContextOk(ctx) && Tracks(ctx, st)
    requires Settled(st) ==> st.lastEnd < ctx.sessionEnd - MinRemainingTime && !DueForBreak(ctx, st.experienceCount)
    requires Select(ctx, st.usedRoomIds, st.lastEnd) == Some(ch)
    requires BestAmong(ctx, st.usedRoomIds, st.lastEnd, |ctx.sorted|, Some(ch))
    ensures ItemOk(ctx, st.items, PickedItem(ch))
    ensures EndOf(PickedItem(ch)) == ch.slot.startMins + ch.room.duration
  {
  }

  lemma PickKeeps(ctx: Context, st: GenState)
    requires ContextOk(ctx) && Tracks(ctx, st)
    requires Settled(st) ==> st.lastEnd < ctx.sessionEnd - MinRemainingTime && !DueForBreak(ctx, st.experienceCount)
    ensures PickExperience(ctx, st).Stop? ==> PickExperience(ctx, st).state == st
    ensures PickExperience(ctx, st).Continue? ==>
      var s := PickExperience(ctx, st).state;
      && Tracks(ctx, s) && Settled(s) && Extends(ctx, st, s)
      && |s.items| == |st.items| + 1
      && s.experienceCount == st.experienceCount + 1
  {
    var c := Select(ctx, st.usedRoomIds, st.lastEnd);
    SelectIsGreedy(ctx, st.usedRoomIds, st.lastEnd);
    if c.Some? && c.value.slot.time != "" {
      var ch := c.value;
      var x := PickedItem(ch);
      PickedItemOk(ctx, st, ch);
      AppendOne(ctx, st.items, x);
      AppendCounts(st.items, x);
      PickStep(ctx, st, ch);
    }
  }

  lemma OkFromTransitive(ctx: Context, a: seq<CourseItem>, b: seq<CourseItem>, c: seq<CourseItem>)
    requires |a| <= |b| <= |c| && c[..|b|] == b && b[..|a|] == a
    requires OkFrom(ctx, b, |a|) && OkFrom(ctx, c, |b|)
    ensures c[..|a|] == a && OkFrom(ctx, c, |a|)
  {
    forall k | |a| <= k < |b| ensures ItemOk(ctx, Before(c, k), c[k]) {
      assert Before(c, k) == Before(b, k);
      assert c[k] == b[k];
    }
  }

  /** The state after the break of an iteration that takes one. */
  function AfterBreak(ctx: Context, st: GenState): GenState {
    var breakEnd := st.lastEnd + ctx.breakDuration;
    GenState(st.items + [Break(MinutesToTime(st.lastEnd), MinutesToTime(breakEnd))], st.usedRoomIds, breakEnd, st.experienceCount)
  }

  lemma IterateCases(ctx: Context, st: GenState)
    ensures !DueForBreak(ctx, st.experienceCount) ==> Iterate(ctx, st) == PickExperience(ctx, st)
    ensures DueForBreak(ctx, st.experienceCount) && st.lastEnd + ctx.breakDuration >= ctx.sessionEnd ==>
      Iterate(ctx, st) == Stop(st)
    ensures DueForBreak(ctx, st.experienceCount) && st.lastEnd + ctx.breakDuration < ctx.sessionEnd ==>
      Iterate(ctx, st) == PickExperience(ctx, AfterBreak(ctx, st))
  {
  }

  lemma BreakKeeps(ctx: Context, st: GenState)
    requires ContextOk(ctx) && Tracks(ctx, st) && Settled(st)
    requires st.lastEnd < ctx.sessionEnd - MinRemainingTime
    requires DueForBreak(ctx, st.experienceCount) && st.lastEnd + ctx.breakDuration < ctx.sessionEnd
    ensures var st' := AfterBreak(ctx, st);
      && Tracks(ctx, st') && Extends(ctx, st, st')
      && |st'.items| == |st.items| + 1 && st'.experienceCount == st.experienceCount
  {
    var breakEnd := st.lastEnd + ctx.breakDuration;
    var x := Break(MinutesToTime(st.lastEnd), MinutesToTime(breakEnd));
    assert |st.items| > 0;
    assert ItemOk(ctx, st.items, x);
    AppendOne(ctx, st.items, x);
    AppendCounts(st.items, x);
  }

  /** The conclusion of `IterateKeeps` for a step from `st` that ended in `p`. */
  ghost predicate StepOk(ctx: Context, st: GenState, p: Progress) {
    var s := p.state;
    && Tracks(ctx, s) && Extends(ctx, st, s)
    && (p.Stop? ==> |s.items| <= |st.items| + 1 && s.experienceCount == st.experienceCount)
    && (p.Continue? ==> Settled(s) && |s.items| <= |st.items| + 2 && s.experienceCount == st.experienceCount + 1)
  }

  lemma BreakThenPickKeeps(ctx: Context, st: GenState)
    requires ContextOk(ctx) && Tracks(ctx, st) && Settled(st)
    requires st.lastEnd < ctx.sessionEnd - MinRemainingTime
    requires DueForBreak(ctx, st.experienceCount) && st.lastEnd + ctx.breakDuration < ctx.sessionEnd
    ensures StepOk(ctx, st, PickExperience(ctx, AfterBreak(ctx, st)))
  {
    var st' := AfterBreak(ctx, st);
    BreakKeeps(ctx, st);
    PickKeeps(ctx, st');
    var p := PickExperience(ctx, st');
    if p.Continue? {
      OkFromTransitive(ctx, st.items, st'.items, p.state.items);
    }
  }

  lemma PickOnlyKeeps(ctx: Context, st: GenState)
    requires ContextOk(ctx) && Tracks(ctx, st) && Settled(st)
    requires st.lastEnd < ctx.sessionEnd - MinRemainingTime && !DueForBreak(ctx, st.experienceCount)
    ensures StepOk(ctx, st, PickExperience(ctx, st))
  {
    PickKeeps(ctx, st);
    assert st.items[..|st.items|] == st.items;
  }

  lemma IterateKeeps(ctx: Context, st: GenState)
    requires ContextOk(ctx) && Tracks(ctx, st) && Settled(st)
    requires st.lastEnd < ctx.sessionEnd - MinRemainingTime
    ensures StepOk(ctx, st, Iterate(ctx, st))
  {
    IterateCases(ctx, st);
    if !DueForBreak(ctx, st.experienceCount) {
      PickOnlyKeeps(ctx, st);
    } else if st.lastEnd + ctx.breakDuration < ctx.sessionEnd {
      BreakThenPickKeeps(ctx, st);
    } else {
      assert st.items[..|st.items|] == st.items;
    }
  }

  /** A round from `st` ending in `p` adds at most two items and at most one experience. */
  predicate Grows(st: GenState, p: Progress) {
    && |p.state.items| <= |st.items| + 2
    && p.state.experienceCount <= st.experienceCount + 1
    && (p.Continue? ==> Settled(p.state))
  }

  /** The loop invariant: the bookkeeping agrees with the items and every item is well placed. */
  ghost predicate Invariant(ctx: Context, st: GenState) {
    Tracks(ctx, st) && AllOk(ctx, st.items)
  }

  /** Any loop whose rounds keep `inv` and grow as `Grows` says keeps `inv` and stays within its bounds. */
  lemma {:induction false} LoopKeeps(step: GenState -> Progress, more: GenState -> bool, inv: GenState -> bool, st: GenState, iteration: nat)
    requires forall s :: inv(s) && Settled(s) && more(s) ==> inv(step(s).state) && Grows(s, step(s))
    requires inv(st) && Settled(st)
    requires iteration <= MaxIterations
    requires |st.items| <= 2 * iteration && st.experienceCount <= iteration
    ensures var s := Loop(step, more, st, iteration);
      && inv(s)
      && |s.items| <= 2 * MaxIterations
      && s.experienceCount <= MaxIterations
    decreases MaxIterations - iteration
  {
    if iteration < MaxIterations && more(st) && step(st).Continue? {
      LoopKeeps(step, more, inv, step(st).state, iteration + 1);
    }
  }

  lemma RunKeeps(ctx: Context, st: GenState)
    requires ContextOk(ctx) && Invariant(ctx, st) && Settled(st) && |st.items| == 0
    ensures var s := Run(ctx, st, 0);
      && Invariant(ctx, s)
      && |s.items| <= 2 * MaxIterations
      && s.experienceCount <= MaxIterations
  {
    var inv := (s: GenState) => Invariant(ctx, s);
    forall s | inv(s) && Settled(s) && More(ctx)(s)
      ensures inv(Step(ctx)(s).state) && Grows(s, Step(ctx)(s))
    {
      IterateKeeps(ctx, s);
      ExtendKeepsAllOk(ctx, s.items, Iterate(ctx, s).state.items);
    }
    LoopKeeps(Step(ctx), More(ctx), inv, st, 0);
  }

  /** The generator's final items satisfy the loop invariant and the work bounds. */
  lemma GeneratedItemsOk(registry: Registry, opts: CourseOptions, stamp: nat)
    requires opts.breakDuration >= 0
    ensures var ctx := ContextOf(registry, opts);
      var items := GenerateCourse(registry, opts, stamp).items;
      && AllOk(ctx, items)
      && ExperienceCount(items) <= MaxIterations
      && |items| <= 2 * MaxIterations
  {
    var ctx := ContextOf(registry, opts);
    var init := GenState([], {}, ctx.start, 0);
    RunKeeps(ctx, init);
    assert GenerateCourse(registry, opts, stamp).items == Run(ctx, init, 0).items;
  }
}
