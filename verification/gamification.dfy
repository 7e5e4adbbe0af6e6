/** The gamification: points recomputed from the severities of a scan's
    results, a history of points and scan times, and a lighthouse state
    from 1 to 5 that rewards few points and sustained use. */
module Gamification {
  import opened Wrappers
  import opened Checks
  import opened Database
  import opened Settings

  datatype GameState = GameState(
    points: int,
    pointsHistory: seq<int>,
    timeStamps: seq<Time>,
    lighthouseState: int)

  /** How long the user must have been using the program (seven days) for
      the lighthouse to improve. */
  const RequiredDuration: int := 7 * 24 * Hour

  /** A severity that earns points: 0 to 3; informative results (4) and
      anything else earn none. */
  predicate Counts(sev: int) {
    0 <= sev < 4
  }

  /** Reference definition: the sum of the severities that count. */
  function SeveritySum(dataList: seq<Data>): (total: int)
    ensures 0 <= total <= 3 * |dataList|
    decreases |dataList|
  {
    if |dataList| == 0 then 0
    else
      var last := dataList[|dataList| - 1].severity;
      SeveritySum(dataList[..|dataList| - 1]) + (if Counts(last) then last else 0)
  }

  /** Entries whose severity does not count leave the sum unchanged. */
  lemma {:induction false} SeveritySumIgnores(a: seq<Data>, b: seq<Data>)
    requires forall i :: 0 <= i < |b| ==> !Counts(b[i].severity)
    ensures SeveritySum(a + b) == SeveritySum(a)
    decreases |b|
  {
    if |b| > 0 {
      var ab := a + b;
      assert ab[..|ab| - 1] == a + b[..|b| - 1];
      assert ab[|ab| - 1] == b[|b| - 1];
      SeveritySumIgnores(a, b[..|b| - 1]);
    } else {
      assert a + b == a;
    }
  }

  /** The sum over a concatenation is the sum of the parts. */
  lemma {:induction false} SeveritySumAppend(a: seq<Data>, b: seq<Data>)
    ensures SeveritySum(a + b) == SeveritySum(a) + SeveritySum(b)
    decreases |b|
  {
    if |b| > 0 {
      var ab := a + b;
      assert ab[..|ab| - 1] == a + b[..|b| - 1];
      assert ab[|ab| - 1] == b[|b| - 1];
      SeveritySumAppend(a, b[..|b| - 1]);
    } else {
      assert a + b == a;
    }
  }

  /** `RealPointCalculationGetter.PointCalculation`: points restart from 0
      and are the sum of the counting severities; on success one entry is
      appended to the history and one time stamp to the log. */
  method PointCalculation(gs: GameState, scanResults: seq<Check>, file: Result<Catalogue>, now: Time)
    returns (r: GameState, err: Option<string>)
    ensures err.Some? <==> file.Err?
    ensures err.Some? ==> r == gs.(points := 0)
    ensures err.None? ==> r.points == SeveritySum(Collect(file.value, scanResults))
    ensures err.None? ==> r.pointsHistory == gs.pointsHistory + [r.points]
    ensures err.None? ==> r.timeStamps == gs.timeStamps + [now]
    ensures r.lighthouseState == gs.lighthouseState
    ensures 0 <= r.points
  {
    r := gs.(points := 0);
    var dataList := GetData(file, scanResults);
    if dataList.Err? {
      return r, Some(dataList.error);
    }
    var list := dataList.value;
    var i := 0;
    while i < |list|
      invariant 0 <= i <= |list|
      invariant r == gs.(points := SeveritySum(list[..i]))
    {
      assert list[..i + 1][..i] == list[..i];
      var sev := list[i].severity;
      if sev >= 0 && sev < 4 {
        r := r.(points := r.points + sev);
      }
      i := i + 1;
    }
    assert list[..i] == list;
    r := r.(pointsHistory := r.pointsHistory + [r.points], timeStamps := r.timeStamps + [now]);
    err := None;
  }

  /** `SufficientActivity`: the first scan was more than a week before
      `now`. */
  predicate SufficientActivity(gs: GameState, now: Time) {
    |gs.timeStamps| > 0 && Sub(now, gs.timeStamps[0]) > RequiredDuration
  }

  /** Sufficient activity, once reached, lasts as time goes on. */
  lemma ActivityPersists(gs: GameState, now: Time, later: Time)
    requires SufficientActivity(gs, now) && now <= later
    ensures SufficientActivity(gs, later)
  {
  }

  /** Only the oldest time stamp matters: a scan appending a time stamp to
      a non-empty log does not change the verdict. */
  lemma ActivityIgnoresLaterStamps(gs: GameState, t: Time, now: Time)
    requires |gs.timeStamps| > 0
    ensures SufficientActivity(gs.(timeStamps := gs.timeStamps + [t]), now) == SufficientActivity(gs, now)
  {
    assert (gs.timeStamps + [t])[0] == gs.timeStamps[0];
  }

  /** `LighthouseStateTransition`: 5 for fewer than 10 points, one step less
      for each further 10 points, 1 from 40 points on, and always 1 without
      sufficient activity. Only the lighthouse state changes. */
  function LighthouseStateTransition(gs: GameState, now: Time): (r: GameState)
    ensures 1 <= r.lighthouseState <= 5
    ensures r == gs.(lighthouseState := r.lighthouseState)
    ensures !SufficientActivity(gs, now) ==> r.lighthouseState == 1
    ensures SufficientActivity(gs, now) && 0 <= gs.points < 40 ==> r.lighthouseState == 5 - gs.points / 10
    ensures gs.points >= 40 ==> r.lighthouseState == 1
  {
    var active := SufficientActivity(gs, now);
    if gs.points < 10 && active then gs.(lighthouseState := 5)
    else if gs.points < 20 && active then gs.(lighthouseState := 4)
    else if gs.points < 30 && active then gs.(lighthouseState := 3)
    else if gs.points < 40 && active then gs.(lighthouseState := 2)
    else if gs.points < 50 && active then gs.(lighthouseState := 1)
    else gs.(lighthouseState := 1)
  }

  /** More points never give a better lighthouse. */
  lemma LighthouseMonotone(gs: GameState, now: Time, p: int, q: int)
    requires p <= q
    ensures LighthouseStateTransition(gs.(points := q), now).lighthouseState
         <= LighthouseStateTransition(gs.(points := p), now).lighthouseState
  {
    assert SufficientActivity(gs.(points := q), now) == SufficientActivity(gs.(points := p), now);
  }

  function FromSettings(s: UserSettings): GameState {
    GameState(s.points, s.pointsHistory, s.timeStamps, s.lighthouseState)
  }

  function IntoSettings(s: UserSettings, gs: GameState): (r: UserSettings)
    ensures FromSettings(r) == gs
    ensures r.language == s.language && r.scanInterval == s.scanInterval && r.nextScan == s.nextScan
  {
    s.(points := gs.points, pointsHistory := gs.pointsHistory,
       timeStamps := gs.timeStamps, lighthouseState := gs.lighthouseState)
  }

  /** `UpdateGameState`: load the game state from the settings, compute the
      points, move the lighthouse and save. A point-calculation error is
      returned at once, nothing saved; a failed save is only logged. */
  method UpdateGameState(scanResults: seq<Check>, file: Result<Catalogue>, store: UserSettings,
                         now: Time, saveOk: bool)
    returns (gs: GameState, err: Option<string>, store': UserSettings)
    ensures err.Some? <==> file.Err?
    ensures err.Some? ==> store' == store && gs == FromSettings(store).(points := 0)
    ensures err.None? ==>
      && gs.points == SeveritySum(Collect(file.value, scanResults))
      && gs.pointsHistory == store.pointsHistory + [gs.points]
      && gs.timeStamps == store.timeStamps + [now]
      && 1 <= gs.lighthouseState <= 5
    ensures err.None? ==>
      gs == LighthouseStateTransition(FromSettings(store).(points := gs.points, pointsHistory := gs.pointsHistory,
                                                           timeStamps := gs.timeStamps), now)
    ensures err.None? && saveOk ==> store' == IntoSettings(store, gs)
    ensures !saveOk ==> store' == store
  {
    gs := FromSettings(store);
    gs, err := PointCalculation(gs, scanResults, file, now);
    if err.Some? {
      return gs, err, store;
    }
    gs := LighthouseStateTransition(gs, now);
    var current := store;
    current := IntoSettings(current, gs);
    store' := Save(store, current, saveOk);
    err := None;
  }
}
