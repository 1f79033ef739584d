/**
 * Schedule lookup (src/utils/schedule.ts): slot lists in minutes, the first
 * slot at or after a time, the rooms still available sorted by their next
 * slot, and rooms grouped by duration.
 */
module Schedule {
  import opened Wrappers
  import opened Types
  import opened Time
  import opened Sorting

  /**
   * The session's slot list of `duration` in minutes, or `[]` when the
   * duration has no schedule. `getScheduleMinutes` memoizes this list; the value
   * returned is the same on every call.
   */
  function GetScheduleMinutes(registry: Registry, duration: Duration, session: Session): (r: seq<int>)
    ensures TimesFor(registry, duration, session).None? ==> r == []
    ensures TimesFor(registry, duration, session).Some? ==>
      var times := TimesFor(registry, duration, session).value;
      |r| == |times| && forall i :: 0 <= i < |r| ==> r[i] == TimeToMinutes(times[i])
    ensures forall i :: 0 <= i < |r| ==> 0 <= r[i] <= LastMinute
  {
    match TimesFor(registry, duration, session)
    case None => []
    case Some(times) => seq(|times|, i requires 0 <= i < |times| => TimeToMinutes(times[i]))
  }

  /** The least index from `i` on whose minute is at or after `bound`. */
  function FirstAtOrAfter(mins: seq<int>, bound: int, i: nat): (r: Option<nat>)
    requires i <= |mins|
    ensures r.Some? ==>
      && i <= r.value < |mins|
      && mins[r.value] >= bound
      && forall j :: i <= j < r.value ==> mins[j] < bound
    ensures r.None? ==> forall j :: i <= j < |mins| ==> mins[j] < bound
    decreases |mins| - i
  {
    if i == |mins| then None
    else if mins[i] >= bound then Some(i)
    else FirstAtOrAfter(mins, bound, i + 1)
  }

  /** Minutes that never decrease along the list. */
  predicate Ascending(mins: seq<int>) {
    forall i, j :: 0 <= i < j < |mins| ==> mins[i] <= mins[j]
  }

  /**
   * When a session's slot texts run forward in time, so does the minute
   * list, and the first slot at or after `current` splits it: every slot
   * before it is earlier than `current`, every slot from it on is not.
   */
  lemma ScheduleMinutesSplit(registry: Registry, duration: Duration, session: Session, current: int)
    ensures TimesFor(registry, duration, session).Some? ==>
      var times := TimesFor(registry, duration, session).value;
      var mins := GetScheduleMinutes(registry, duration, session);
      && (Ascending(mins) <==> forall i, j :: 0 <= i < j < |times| ==> TimeToMinutes(times[i]) <= TimeToMinutes(times[j]))
      && (Ascending(mins) ==>
            match FirstAtOrAfter(mins, current, 0)
            case None => forall j :: 0 <= j < |mins| ==> mins[j] < current
            case Some(k) => forall j :: 0 <= j < |mins| ==> (mins[j] >= current <==> k <= j))
  {
    if TimesFor(registry, duration, session).Some? {
      var mins := GetScheduleMinutes(registry, duration, session);
      if Ascending(mins) {
        AscendingSplits(mins, current);
      }
    }
  }

  /** In an ascending list the first entry at or after `bound` starts the suffix of entries not below it. */
  lemma AscendingSplits(mins: seq<int>, bound: int)
    requires Ascending(mins)
    ensures match FirstAtOrAfter(mins, bound, 0)
      case None => forall j :: 0 <= j < |mins| ==> mins[j] < bound
      case Some(k) => forall j :: 0 <= j < |mins| ==> (mins[j] >= bound <==> k <= j)
  {
  }

  /** Index of the first slot of `duration` in `session` at or after minute `current`. */
  function NextSlotIndex(registry: Registry, duration: Duration, session: Session, current: int): (r: Option<nat>)
    ensures r.Some? ==>
      && TimesFor(registry, duration, session).Some?
      && r.value < |TimesFor(registry, duration, session).value|
  {
    if TimesFor(registry, duration, session).None? then None
    else FirstAtOrAfter(GetScheduleMinutes(registry, duration, session), current, 0)
  }

  /**
   * The text of the room's first slot at or after `currentTime`: the entry
   * of least index whose minute value is not earlier; `None` when there is
   * none or the duration has no schedule.
   */
  function GetNextAvailableTime(registry: Registry, room: Room, currentTime: string, session: Session): (r: Option<string>)
    ensures TimesFor(registry, room.duration, session).None? ==> r.None?
    ensures TimesFor(registry, room.duration, session).Some? ==>
      var times := TimesFor(registry, room.duration, session).value;
      && (r.None? <==> forall j :: 0 <= j < |times| ==> TimeToMinutes(times[j]) < TimeToMinutes(currentTime))
      && (r.Some? ==> exists i :: (
            && 0 <= i < |times|
            && r.value == times[i]
            && TimeToMinutes(times[i]) >= TimeToMinutes(currentTime)
            && forall j :: 0 <= j < i ==> TimeToMinutes(times[j]) < TimeToMinutes(currentTime)))
  {
    match NextSlotIndex(registry, room.duration, session, TimeToMinutes(currentTime))
    case None => None
    case Some(i) => Some(TimesFor(registry, room.duration, session).value[i])
  }

  /** A room annotated with its next slot, as text and in minutes. */
  datatype AvailableRoom = AvailableRoom(room: Room, nextTime: string, nextTimeMins: int)

  function NextMins(a: AvailableRoom): int {
    a.nextTimeMins
  }

  /** The per-room step of `getAvailableRooms`: annotate, or drop with `None`. */
  function Annotation(registry: Registry, room: Room, current: int, session: Session): Option<AvailableRoom> {
    match NextSlotIndex(registry, room.duration, session, current)
    case None => None
    case Some(i) =>
      Some(AvailableRoom(room, TimesFor(registry, room.duration, session).value[i],
                         GetScheduleMinutes(registry, room.duration, session)[i]))
  }

  lemma AnnotationAgrees(registry: Registry, room: Room, currentTime: string, session: Session)
    ensures var a := Annotation(registry, room, TimeToMinutes(currentTime), session);
      var t := GetNextAvailableTime(registry, room, currentTime, session);
      && (a.Some? <==> t.Some?)
      && (a.Some? ==> a.value == AvailableRoom(room, t.value, TimeToMinutes(t.value)))
  {
  }

  /** Map-then-drop-nulls over the rooms, keeping input order. */
  function Annotate(registry: Registry, rooms: seq<Room>, current: int, session: Session): (r: seq<AvailableRoom>)
    ensures |r| <= |rooms|
    ensures forall a :: a in r ==> a.room in rooms && Annotation(registry, a.room, current, session) == Some(a)
    ensures forall i :: 0 <= i < |rooms| && Annotation(registry, rooms[i], current, session).Some? ==>
      Annotation(registry, rooms[i], current, session).value in r
  {
    if |rooms| == 0 then []
    else
      var rest := Annotate(registry, rooms[1..], current, session);
      assert forall i :: 1 <= i < |rooms| ==> rooms[i] == rooms[1..][i - 1];
      match Annotation(registry, rooms[0], current, session)
      case None => rest
      case Some(a) => [a] + rest
  }

  /**
   * `Annotate` works room by room and keeps input order: annotating a
   * concatenation is concatenating the annotations.
   */
  lemma {:induction false} AnnotateKeepsOrder(registry: Registry, a: seq<Room>, b: seq<Room>, current: int, session: Session)
    ensures Annotate(registry, a + b, current, session) ==
      Annotate(registry, a, current, session) + Annotate(registry, b, current, session)
    decreases |a|
  {
    if |a| == 0 {
      assert a + b == b;
    } else {
      var h := AnnotationOf(registry, a[0], current, session);
      calc {
        Annotate(registry, a + b, current, session);
        == { AnnotateAppendHead(registry, a, b, current, session); }
        h + Annotate(registry, a[1..] + b, current, session);
        == { AnnotateKeepsOrder(registry, a[1..], b, current, session); }
        h + (Annotate(registry, a[1..], current, session) + Annotate(registry, b, current, session));
        == { ConcatIsAssociative(h, Annotate(registry, a[1..], current, session), Annotate(registry, b, current, session)); }
        (h + Annotate(registry, a[1..], current, session)) + Annotate(registry, b, current, session);
        == { AnnotateHead(registry, a, current, session); }
        Annotate(registry, a, current, session) + Annotate(registry, b, current, session);
      }
    }
  }

  /** One room's contribution to `Annotate`: its annotation, or nothing. */
  function AnnotationOf(registry: Registry, room: Room, current: int, session: Session): seq<AvailableRoom> {
    match Annotation(registry, room, current, session)
    case None => []
    case Some(x) => [x]
  }

  lemma ConcatIsAssociative(h: seq<AvailableRoom>, x: seq<AvailableRoom>, y: seq<AvailableRoom>)
    ensures h + (x + y) == (h + x) + y
  {
  }

  lemma AnnotateAppendHead(registry: Registry, a: seq<Room>, b: seq<Room>, current: int, session: Session)
    requires |a| > 0
    ensures Annotate(registry, a + b, current, session) ==
      AnnotationOf(registry, a[0], current, session) + Annotate(registry, a[1..] + b, current, session)
  {
    assert (a + b)[0] == a[0];
    assert (a + b)[1..] == a[1..] + b;
    AnnotateHead(registry, a + b, current, session);
  }

  lemma AnnotateHead(registry: Registry, rooms: seq<Room>, current: int, session: Session)
    requires |rooms| > 0
    ensures Annotate(registry, rooms, current, session) ==
      AnnotationOf(registry, rooms[0], current, session) + Annotate(registry, rooms[1..], current, session)
  {
  }

  /** On one room, `Annotate` gives its annotation, or nothing when it has no next slot. */
  lemma AnnotateSingleton(registry: Registry, room: Room, current: int, session: Session)
    ensures Annotate(registry, [room], current, session) ==
      match Annotation(registry, room, current, session)
      case None => []
      case Some(x) => [x]
  {
    assert [room][1..] == [];
  }

  /**
   * The rooms that still have a slot at or after `currentTime`, each with
   * that first slot, ascending by slot minute; rooms with equal minutes keep
   * their input order.
   */
  function GetAvailableRooms(registry: Registry, rooms: seq<Room>, currentTime: string, session: Session): (r: seq<AvailableRoom>)
    ensures |r| <= |rooms|
    ensures SortedBy(r, NextMins)
    ensures forall a :: a in r ==>
      && a.room in rooms
      && GetNextAvailableTime(registry, a.room, currentTime, session) == Some(a.nextTime)
      && a.nextTimeMins == TimeToMinutes(a.nextTime)
      && a.nextTimeMins >= TimeToMinutes(currentTime)
    ensures forall i :: 0 <= i < |rooms| && GetNextAvailableTime(registry, rooms[i], currentTime, session).Some? ==>
      var t := GetNextAvailableTime(registry, rooms[i], currentTime, session).value;
      AvailableRoom(rooms[i], t, TimeToMinutes(t)) in r
    ensures forall k :: WithKey(r, NextMins, k) == WithKey(Annotate(registry, rooms, TimeToMinutes(currentTime), session), NextMins, k)
  {
    var kept := Annotate(registry, rooms, TimeToMinutes(currentTime), session);
    SortByMembers(kept, NextMins);
    forall a | a in kept ensures GetNextAvailableTime(registry, a.room, currentTime, session) == Some(a.nextTime) {
      AnnotationAgrees(registry, a.room, currentTime, session);
    }
    forall i | 0 <= i < |rooms| {
      AnnotationAgrees(registry, rooms[i], currentTime, session);
    }
    forall k ensures WithKey(SortBy(kept, NextMins), NextMins, k) == WithKey(kept, NextMins, k) {
      SortByIsStable(kept, NextMins, k);
    }
    SortBy(kept, NextMins)
  }

  /** One entry of the duration map: a duration and its rooms in input order. */
  datatype DurationGroup = DurationGroup(duration: Duration, rooms: seq<Room>)

  function GroupKey(g: DurationGroup): int {
    g.duration
  }

  /** The rooms of one duration, in input order. */
  function RoomsOfDuration(rooms: seq<Room>, d: Duration): (r: seq<Room>)
    ensures |r| <= |rooms|
  {
    if |rooms| == 0 then []
    else (if rooms[0].duration == d then [rooms[0]] else []) + RoomsOfDuration(rooms[1..], d)
  }

  lemma {:induction false} RoomsOfDurationAppend(rooms: seq<Room>, x: Room, d: Duration)
    ensures RoomsOfDuration(rooms + [x], d) == RoomsOfDuration(rooms, d) + (if x.duration == d then [x] else [])
  {
    if |rooms| > 0 {
      assert (rooms + [x])[1..] == rooms[1..] + [x];
      RoomsOfDurationAppend(rooms[1..], x, d);
    }
  }

  function TotalSize(groups: seq<DurationGroup>): nat {
    if |groups| == 0 then 0 else |groups[0].rooms| + TotalSize(groups[1..])
  }

  ghost function Keys(groups: seq<DurationGroup>): set<int> {
    set g | g in groups :: g.duration
  }

  /** Index of the group for `d`, if one exists yet. */
  function FindGroup(groups: seq<DurationGroup>, d: Duration, i: nat): (r: Option<nat>)
    requires i <= |groups|
    ensures r.Some? ==> i <= r.value < |groups| && groups[r.value].duration == d
    ensures r.None? ==> forall j :: i <= j < |groups| ==> groups[j].duration != d
    decreases |groups| - i
  {
    if i == |groups| then None
    else if groups[i].duration == d then Some(i)
    else FindGroup(groups, d, i + 1)
  }

  /** One step of the loop: push onto the duration's group, creating it if absent. */
  function AddToGroups(groups: seq<DurationGroup>, room: Room): seq<DurationGroup> {
    match FindGroup(groups, room.duration, 0)
    case Some(i) => Pushed(groups, room, i)
    case None => Opened(groups, room)
  }

  /** The groups in first-appearance order, as the loop builds them. */
  function GroupInOrder(rooms: seq<Room>): seq<DurationGroup>
    decreases |rooms|
  {
    if |rooms| == 0 then [] else AddToGroups(GroupInOrder(rooms[..|rooms| - 1]), rooms[|rooms| - 1])
  }

  /** Each group is nonempty and holds exactly the rooms of its duration, in input order. */
  ghost predicate GroupsFilter(rooms: seq<Room>, groups: seq<DurationGroup>) {
    forall j :: 0 <= j < |groups| ==>
      |groups[j].rooms| > 0 && groups[j].rooms == RoomsOfDuration(rooms, groups[j].duration)
  }

  /** Every room's duration has a group. */
  ghost predicate Covers(rooms: seq<Room>, groups: seq<DurationGroup>) {
    forall i :: 0 <= i < |rooms| ==> rooms[i].duration in Keys(groups)
  }

  /** `groups` partitions `rooms` by duration. */
  ghost predicate PartitionsByDuration(rooms: seq<Room>, groups: seq<DurationGroup>) {
    && KeysDistinct(groups, GroupKey)
    && GroupsFilter(rooms, groups)
    && Covers(rooms, groups)
    && TotalSize(groups) == |rooms|
  }

  lemma {:induction false} TotalSizeUpdate(groups: seq<DurationGroup>, i: nat, g: DurationGroup)
    requires i < |groups|
    ensures TotalSize(groups[i := g]) == TotalSize(groups) - |groups[i].rooms| + |g.rooms|
  {
    if i > 0 {
      assert groups[i := g][1..] == groups[1..][i - 1 := g];
      TotalSizeUpdate(groups[1..], i - 1, g);
    }
  }

  lemma {:induction false} TotalSizeAppend(groups: seq<DurationGroup>, g: DurationGroup)
    ensures TotalSize(groups + [g]) == TotalSize(groups) + |g.rooms|
  {
    if |groups| > 0 {
      assert (groups + [g])[1..] == groups[1..] + [g];
      TotalSizeAppend(groups[1..], g);
    }
  }

  /** The groups after pushing `x` onto group `i`. */
  function Pushed(groups: seq<DurationGroup>, x: Room, i: nat): seq<DurationGroup>
    requires i < |groups|
  {
    groups[i := DurationGroup(x.duration, groups[i].rooms + [x])]
  }

  lemma PushedFilter(rooms: seq<Room>, groups: seq<DurationGroup>, x: Room, i: nat)
    requires GroupsFilter(rooms, groups) && KeysDistinct(groups, GroupKey)
    requires i < |groups| && groups[i].duration == x.duration
    ensures GroupsFilter(rooms + [x], Pushed(groups, x, i))
  {
    var r := Pushed(groups, x, i);
    forall j | 0 <= j < |r| ensures |r[j].rooms| > 0 && r[j].rooms == RoomsOfDuration(rooms + [x], r[j].duration) {
      RoomsOfDurationAppend(rooms, x, r[j].duration);
      assert |groups[j].rooms| > 0 && groups[j].rooms == RoomsOfDuration(rooms, groups[j].duration);
      if j != i {
        assert r[j] == groups[j];
        assert GroupKey(groups[j]) != GroupKey(groups[i]);
      }
    }
  }

  lemma PushedKeys(groups: seq<DurationGroup>, x: Room, i: nat)
    requires i < |groups| && groups[i].duration == x.duration
    ensures Keys(Pushed(groups, x, i)) == Keys(groups)
  {
    var r := Pushed(groups, x, i);
    forall k | k in Keys(groups) ensures k in Keys(r) {
      var j := KeyIndex(groups, k);
      assert r[j] in r;
    }
    forall k | k in Keys(r) ensures k in Keys(groups) {
      var j := KeyIndex(r, k);
      assert groups[j] in groups;
    }
  }

  lemma PushedCovers(rooms: seq<Room>, groups: seq<DurationGroup>, x: Room, i: nat)
    requires Covers(rooms, groups)
    requires i < |groups| && groups[i].duration == x.duration
    ensures Covers(rooms + [x], Pushed(groups, x, i))
  {
    var p := rooms + [x];
    PushedKeys(groups, x, i);
    forall j | 0 <= j < |p| ensures p[j].duration in Keys(groups) {
      if j == |rooms| {
        assert groups[i] in groups;
      } else {
        assert p[j] == rooms[j];
      }
    }
  }

  lemma AddToExistingGroup(rooms: seq<Room>, groups: seq<DurationGroup>, x: Room, i: nat)
    requires PartitionsByDuration(rooms, groups)
    requires i < |groups| && groups[i].duration == x.duration
    ensures PartitionsByDuration(rooms + [x], Pushed(groups, x, i))
  {
    TotalSizeUpdate(groups, i, Pushed(groups, x, i)[i]);
    PushedFilter(rooms, groups, x, i);
    PushedCovers(rooms, groups, x, i);
  }

  /** The groups after opening a new group for `x`. */
  function Opened(groups: seq<DurationGroup>, x: Room): seq<DurationGroup> {
    groups + [DurationGroup(x.duration, [x])]
  }

  lemma OpenedFilter(rooms: seq<Room>, groups: seq<DurationGroup>, x: Room)
    requires GroupsFilter(rooms, groups) && Covers(rooms, groups)
    requires forall j :: 0 <= j < |groups| ==> groups[j].duration != x.duration
    ensures GroupsFilter(rooms + [x], Opened(groups, x))
  {
    var r := Opened(groups, x);
    assert RoomsOfDuration(rooms, x.duration) == [] by {
      if |RoomsOfDuration(rooms, x.duration)| > 0 {
        var j := RoomOfDurationWitness(rooms, x.duration);
        var k := KeyIndex(groups, rooms[j].duration);
      }
    }
    forall j | 0 <= j < |r| ensures |r[j].rooms| > 0 && r[j].rooms == RoomsOfDuration(rooms + [x], r[j].duration) {
      RoomsOfDurationAppend(rooms, x, r[j].duration);
      if j < |groups| {
        assert r[j] == groups[j];
      }
    }
  }

  lemma OpenedCovers(rooms: seq<Room>, groups: seq<DurationGroup>, x: Room)
    requires Covers(rooms, groups)
    ensures Covers(rooms + [x], Opened(groups, x))
  {
    var p := rooms + [x];
    var r := Opened(groups, x);
    assert Keys(r) == Keys(groups) + {x.duration} by {
      forall k | k in Keys(groups) ensures k in Keys(r) {
        var j := KeyIndex(groups, k);
        assert r[j] in r;
      }
      assert r[|groups|] in r;
    }
    forall j | 0 <= j < |p| ensures p[j].duration in Keys(r) {
      if j < |rooms| {
        assert p[j] == rooms[j];
      }
    }
  }

  lemma AddNewGroup(rooms: seq<Room>, groups: seq<DurationGroup>, x: Room)
    requires PartitionsByDuration(rooms, groups)
    requires forall j :: 0 <= j < |groups| ==> groups[j].duration != x.duration
    ensures PartitionsByDuration(rooms + [x], Opened(groups, x))
  {
    var r := Opened(groups, x);
    TotalSizeAppend(groups, r[|groups|]);
    assert forall j :: 0 <= j < |groups| ==> r[j] == groups[j];
    assert KeysDistinct(r, GroupKey);
    OpenedFilter(rooms, groups, x);
    OpenedCovers(rooms, groups, x);
  }

  lemma AddToGroupsPartitions(rooms: seq<Room>, groups: seq<DurationGroup>, x: Room)
    requires PartitionsByDuration(rooms, groups)
    ensures PartitionsByDuration(rooms + [x], AddToGroups(groups, x))
  {
    match FindGroup(groups, x.duration, 0)
    case Some(i) => AddToExistingGroup(rooms, groups, x, i);
    case None => AddNewGroup(rooms, groups, x);
  }

  lemma KeyIndex(groups: seq<DurationGroup>, k: int) returns (j: nat)
    requires k in Keys(groups)
    ensures j < |groups| && groups[j].duration == k
  {
    var g :| g in groups && g.duration == k;
    j :| j < |groups| && groups[j] == g;
  }

  lemma {:induction false} RoomOfDurationWitness(rooms: seq<Room>, d: Duration) returns (j: nat)
    requires |RoomsOfDuration(rooms, d)| > 0
    ensures j < |rooms| && rooms[j].duration == d
  {
    if rooms[0].duration == d {
      j := 0;
    } else {
      j := RoomOfDurationWitness(rooms[1..], d);
      j := j + 1;
    }
  }

  lemma {:induction false} GroupInOrderPartitions(rooms: seq<Room>)
    ensures PartitionsByDuration(rooms, GroupInOrder(rooms))
    decreases |rooms|
  {
    if |rooms| > 0 {
      var p := rooms[..|rooms| - 1];
      var x := rooms[|rooms| - 1];
      assert p + [x] == rooms;
      assert GroupInOrder(rooms) == AddToGroups(GroupInOrder(p), x);
      GroupInOrderPartitions(p);
      AddToGroupsPartitions(p, GroupInOrder(p), x);
    }
  }

  lemma {:induction false} TotalSizeInsert(g: DurationGroup, groups: seq<DurationGroup>)
    ensures TotalSize(Insert(g, groups, GroupKey)) == |g.rooms| + TotalSize(groups)
  {
    if |groups| > 0 && groups[0].duration < g.duration {
      TotalSizeInsert(g, groups[1..]);
      assert ([groups[0]] + Insert(g, groups[1..], GroupKey))[1..] == Insert(g, groups[1..], GroupKey);
    }
  }

  lemma {:induction false} TotalSizeSort(groups: seq<DurationGroup>)
    ensures TotalSize(SortBy(groups, GroupKey)) == TotalSize(groups)
  {
    if |groups| > 0 {
      TotalSizeSort(groups[1..]);
      TotalSizeInsert(groups[0], SortBy(groups[1..], GroupKey));
    }
  }

  /**
   * Rooms grouped by duration, keys strictly ascending: every room is in
   * exactly the group of its duration, each group keeps input order, no
   * group is empty, and the group sizes add up to the number of rooms.
   */
  function GetRoomsByDuration(rooms: seq<Room>): (r: seq<DurationGroup>)
    ensures forall i, j :: 0 <= i < j < |r| ==> r[i].duration < r[j].duration
    ensures forall g :: g in r ==> |g.rooms| > 0 && g.rooms == RoomsOfDuration(rooms, g.duration)
    ensures forall i :: 0 <= i < |rooms| ==> rooms[i].duration in Keys(r)
    ensures TotalSize(r) == |rooms|
  {
    var groups := GroupInOrder(rooms);
    GroupInOrderPartitions(rooms);
    SortKeepsGroups(rooms, groups);
    SortByKeepsKeysDistinct(groups, GroupKey);
    TotalSizeSort(groups);
    SortBy(groups, GroupKey)
  }

  /** Reordering the groups keeps each group's contents and the set of durations covered. */
  lemma SortKeepsGroups(rooms: seq<Room>, groups: seq<DurationGroup>)
    requires GroupsFilter(rooms, groups) && Covers(rooms, groups)
    ensures forall g :: g in SortBy(groups, GroupKey) ==>
      |g.rooms| > 0 && g.rooms == RoomsOfDuration(rooms, g.duration)
    ensures Covers(rooms, SortBy(groups, GroupKey))
  {
    SortByMembers(groups, GroupKey);
    var r := SortBy(groups, GroupKey);
    assert Keys(r) == Keys(groups);
    forall g | g in r ensures |g.rooms| > 0 && g.rooms == RoomsOfDuration(rooms, g.duration) {
      var j :| 0 <= j < |groups| && groups[j] == g;
    }
  }
}
