/**
 * The application's settings store (src/store/appStore.ts) as a value with
 * pure transitions: the initial defaults, toggling a preferred room,
 * switching hall (which drops the preferences), clearing the preferences
 * and resetting the course settings. The wall-clock read that seeds the
 * current time is the `now` argument of `InitialState`.
 */
module AppStore {
  import opened Wrappers
  import opened Types

  datatype AppState = AppState(
    currentTime: string,
    selectedHall: Hall,
    selectedSession: Session,
    childAge: int,
    preferredRooms: seq<string>,
    breakInterval: int,
    breakDuration: int,
    currentCourse: Option<Course>)

  const DefaultHall: Hall := Children
  const DefaultSession: Session := 1
  const DefaultChildAge: int := 6
  const DefaultBreakInterval: int := 2
  const DefaultBreakDuration: int := 10

  /** The store as created, with `now` as the current time. */
  function InitialState(now: string): (st: AppState)
    ensures st.currentTime == now
    ensures st.selectedHall == Children && st.selectedSession == 1 && st.childAge == 6
    ensures st.preferredRooms == [] && st.currentCourse == None
    ensures st.breakInterval == 2 && st.breakDuration == 10
  {
    AppState(now, DefaultHall, DefaultSession, DefaultChildAge, [], DefaultBreakInterval, DefaultBreakDuration, None)
  }

  /** `ids` without any occurrence of `id`, the other ids in their order. */
  function Without(ids: seq<string>, id: string): (r: seq<string>)
    ensures |r| <= |ids|
    decreases |ids|
  {
    if |ids| == 0 then []
    else if ids[0] == id then Without(ids[1..], id)
    else [ids[0]] + Without(ids[1..], id)
  }

  predicate NoDuplicates(ids: seq<string>) {
    forall i, j :: 0 <= i < j < |ids| ==> ids[i] != ids[j]
  }

  lemma {:induction false} WithoutCounts(ids: seq<string>, id: string)
    ensures multiset(Without(ids, id))[id] == 0
    ensures forall x :: x != id ==> multiset(Without(ids, id))[x] == multiset(ids)[x]
    decreases |ids|
  {
    if |ids| > 0 {
      WithoutCounts(ids[1..], id);
      assert ids == [ids[0]] + ids[1..];
    }
  }

  lemma {:induction false} WithoutAbsent(ids: seq<string>, id: string)
    requires id !in ids
    ensures Without(ids, id) == ids
    decreases |ids|
  {
    if |ids| > 0 {
      WithoutAbsent(ids[1..], id);
      assert ids == [ids[0]] + ids[1..];
    }
  }

  lemma WithoutMembers(ids: seq<string>, id: string)
    ensures forall x :: x in Without(ids, id) <==> x in ids && x != id
  {
    WithoutCounts(ids, id);
    forall x ensures x in Without(ids, id) <==> x in ids && x != id {
      assert x in Without(ids, id) <==> x in multiset(Without(ids, id));
      assert x in ids <==> x in multiset(ids);
    }
  }

  lemma {:induction false} WithoutKeepsNoDuplicates(ids: seq<string>, id: string)
    requires NoDuplicates(ids)
    ensures NoDuplicates(Without(ids, id))
    decreases |ids|
  {
    if |ids| > 0 {
      var rest := ids[1..];
      assert NoDuplicates(rest);
      WithoutKeepsNoDuplicates(rest, id);
      WithoutMembers(rest, id);
      if ids[0] != id {
        assert ids[0] !in rest;
        var r := [ids[0]] + Without(rest, id);
        forall i, j | 0 <= i < j < |r| ensures r[i] != r[j] {
          if i == 0 {
            assert r[j] in Without(rest, id);
          } else {
            assert r[i] == Without(rest, id)[i - 1] && r[j] == Without(rest, id)[j - 1];
          }
        }
      }
    }
  }

  /**
   * `togglePreferredRoom`: a listed id is removed (every occurrence), an
   * unlisted one is appended; every other id keeps its count and nothing
   * else in the store changes.
   */
  function TogglePreferredRoom(st: AppState, roomId: string): (r: AppState)
    ensures roomId in r.preferredRooms <==> roomId !in st.preferredRooms
    ensures forall x :: x != roomId ==> multiset(r.preferredRooms)[x] == multiset(st.preferredRooms)[x]
    ensures roomId !in st.preferredRooms ==> r.preferredRooms == st.preferredRooms + [roomId]
    ensures roomId in st.preferredRooms ==> multiset(r.preferredRooms)[roomId] == 0
    ensures roomId in st.preferredRooms ==> r.preferredRooms == Without(st.preferredRooms, roomId)
    ensures r == st.(preferredRooms := r.preferredRooms)
  {
    if roomId in st.preferredRooms then
      WithoutCounts(st.preferredRooms, roomId);
      WithoutMembers(st.preferredRooms, roomId);
      st.(preferredRooms := Without(st.preferredRooms, roomId))
    else
      st.(preferredRooms := st.preferredRooms + [roomId])
  }

  /** Toggling an unlisted room twice gives the store back. */
  lemma ToggleTwiceRestores(st: AppState, roomId: string)
    requires roomId !in st.preferredRooms
    ensures TogglePreferredRoom(TogglePreferredRoom(st, roomId), roomId) == st
  {
    var once := TogglePreferredRoom(st, roomId);
    WithoutCounts(once.preferredRooms, roomId);
    var p := st.preferredRooms;
    assert Without(p + [roomId], roomId) == p by {
      WithoutAppend(p, roomId);
      WithoutAbsent(p, roomId);
    }
  }

  lemma {:induction false} WithoutAppend(ids: seq<string>, id: string)
    ensures Without(ids + [id], id) == Without(ids, id)
    decreases |ids|
  {
    if |ids| > 0 {
      assert (ids + [id])[1..] == ids[1..] + [id];
      WithoutAppend(ids[1..], id);
    } else {
      assert ids + [id] == [id];
    }
  }

  /**
   * `Without` is a filter: it works element by element, dropping `id` and
   * keeping every other element, so the survivors keep their relative order.
   */
  lemma {:induction false} WithoutFilters(a: seq<string>, b: seq<string>, id: string)
    ensures Without(a + b, id) == Without(a, id) + Without(b, id)
    decreases |a|
  {
    if |a| == 0 {
      assert a + b == b;
    } else {
      assert (a + b)[1..] == a[1..] + b;
      WithoutFilters(a[1..], b, id);
    }
  }

  /** On one element, `Without` drops it exactly when it is `id`. */
  lemma WithoutSingleton(x: string, id: string)
    ensures Without([x], id) == (if x == id then [] else [x])
  {
    assert [x][1..] == [];
  }

  /** Toggling keeps a duplicate-free preference list duplicate-free. */
  lemma ToggleKeepsNoDuplicates(st: AppState, roomId: string)
    requires NoDuplicates(st.preferredRooms)
    ensures NoDuplicates(TogglePreferredRoom(st, roomId).preferredRooms)
  {
    if roomId in st.preferredRooms {
      WithoutKeepsNoDuplicates(st.preferredRooms, roomId);
    }
  }

  /** `setSelectedHall`: switches hall and drops the preferred rooms, which belong to the old hall. */
  function SetSelectedHall(st: AppState, hall: Hall): (r: AppState)
    ensures r.selectedHall == hall && r.preferredRooms == []
    ensures r == st.(selectedHall := hall, preferredRooms := [])
  {
    st.(selectedHall := hall, preferredRooms := [])
  }

  /** `clearPreferredRooms`. */
  function ClearPreferredRooms(st: AppState): (r: AppState)
    ensures r.preferredRooms == [] && r == st.(preferredRooms := [])
  {
    st.(preferredRooms := [])
  }

  /** Switching hall leaves nothing to clear, and repeating the switch changes nothing. */
  lemma HallSwitchClears(st: AppState, hall: Hall)
    ensures ClearPreferredRooms(SetSelectedHall(st, hall)) == SetSelectedHall(st, hall)
    ensures SetSelectedHall(SetSelectedHall(st, hall), hall) == SetSelectedHall(st, hall)
  {
  }

  /**
   * `resetCourseSettings`: the preferences, the break settings and the
   * course go back to their initial values; time, hall, session and age stay.
   */
  function ResetCourseSettings(st: AppState): (r: AppState)
    ensures r == InitialState(st.currentTime).(selectedHall := st.selectedHall,
                                               selectedSession := st.selectedSession,
                                               childAge := st.childAge)
  {
    st.(preferredRooms := [], breakInterval := DefaultBreakInterval, breakDuration := DefaultBreakDuration,
        currentCourse := None)
  }

  /** Resetting twice is resetting once, and a fresh store is already reset. */
  lemma ResetIsIdempotent(st: AppState, now: string)
    ensures ResetCourseSettings(ResetCourseSettings(st)) == ResetCourseSettings(st)
    ensures ResetCourseSettings(InitialState(now)) == InitialState(now)
  {
  }
}
