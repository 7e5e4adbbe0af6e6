/** The persisted user settings the tray and the gamification read and
    write, and the clock. The `usersettings` package (its file format and
    its load and save functions) is not part of this model: the stored
    record is a value, and saving is an operation that may fail. */
module Settings {
  import opened Strings

  /** An instant, in nanoseconds since a fixed epoch. */
  type Time = int

  const Hour: int := 3_600_000_000_000

  datatype UserSettings = UserSettings(
    language: int,
    scanInterval: int,
    nextScan: Time,
    points: int,
    pointsHistory: seq<int>,
    timeStamps: seq<Time>,
    lighthouseState: int)

  /** `t.Sub(u)` in Go: the difference as a 64-bit `time.Duration`,
      clamped to the largest or smallest duration when it does not fit. */
  function Sub(t: Time, u: Time): (d: int)
    ensures MinInt64 <= d <= MaxInt64
    ensures MinInt64 <= t - u <= MaxInt64 ==> d == t - u
    ensures t - u > MaxInt64 ==> d == MaxInt64
    ensures t - u < MinInt64 ==> d == MinInt64
  {
    var diff := t - u;
    if diff > MaxInt64 then MaxInt64 else if diff < MinInt64 then MinInt64 else diff
  }

  /** Saving the settings: the store holds `s` afterwards unless the save
      fails, in which case it keeps what it held. */
  function Save(store: UserSettings, s: UserSettings, saveOk: bool): (r: UserSettings)
    ensures saveOk ==> r == s
    ensures !saveOk ==> r == store
  {
    if saveOk then s else store
  }
}
