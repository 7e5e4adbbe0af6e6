/** The system-tray decisions: language selection, the scan interval and
    the next scheduled scan, scanning on demand and on schedule, and the
    guard against opening the reporting page twice. Dialogs, the scan
    itself and the settings store are inputs. */
module Tray {
  import opened Wrappers
  import opened Strings
  import opened Checks
  import opened Database
  import opened Settings
  import opened Gamification

  /** The names the language dialog lists; a language is its index here. */
  const Languages: seq<string> :=
    ["Deutsch", "English (UK)", "English (US)", "Espa\U{00F1}ol", "Fran\U{00E7}ais", "Nederlands", "Portugu\U{00EA}s"]

  /** The language used when the choice is not one of the listed names. */
  const DefaultLanguage: int := 1

  /** The language index a dialog answer selects. */
  function LanguageIndex(res: string): (r: int)
    ensures 0 <= r < |Languages|
    ensures res !in Languages ==> r == DefaultLanguage
    ensures res in Languages ==> Languages[r] == res
  {
    match res
    case "Deutsch" => 0
    case "English (UK)" => 1
    case "English (US)" => 2
    case "Espa\U{00F1}ol" => 3
    case "Fran\U{00E7}ais" => 4
    case "Nederlands" => 5
    case "Portugu\U{00EA}s" => 6
    case _ => DefaultLanguage
  }

  /** Round trip: choosing the i-th listed name selects language i. */
  lemma LanguageRoundTrip(i: int)
    requires 0 <= i < |Languages|
    ensures LanguageIndex(Languages[i]) == i
  {
  }

  /** `ChangeLanguage`. `answer` is the dialog's answer, `None` when the
      dialog failed (nothing changes then); `test` is the test mode, which
      returns before the settings are touched. */
  function ChangeLanguage(language: int, answer: Option<string>, test: bool,
                          store: UserSettings, saveOk: bool): (r: (int, UserSettings))
    ensures answer.None? ==> r == (language, store)
    ensures answer.Some? ==> r.0 == LanguageIndex(answer.value)
    ensures test ==> r.1 == store
    ensures !test && answer.Some? && saveOk ==> r.1 == store.(language := r.0)
    ensures !saveOk ==> r.1 == store
  {
    match answer
    case None => (language, store)
    case Some(res) =>
      var lang := LanguageIndex(res);
      if test then (lang, store)
      else (lang, Save(store, store.(language := lang), saveOk))
  }

  /** `time.Duration(value) * time.Hour` as written: a 64-bit product that
      wraps around. */
  function HoursAsWritten(value: int): (r: int)
    ensures MinInt64 <= r <= MaxInt64
    ensures (r - value * Hour) % 0x1_0000_0000_0000_0000 == 0
    ensures MinInt64 <= value * Hour <= MaxInt64 ==> r == value * Hour
  {
    WrapInt64(value * Hour)
  }

  /** `updateScanInterval` as written: the interval is stored and the next
      scan is `now` plus the wrapped duration. */
  function UpdateScanIntervalAsWritten(interval: int, test: bool, store: UserSettings,
                                       now: Time, saveOk: bool): (r: UserSettings)
    ensures test ==> r == store
    ensures !test && saveOk ==> r.scanInterval == interval && r.nextScan == now + HoursAsWritten(interval)
  {
    if test then store
    else Save(store, store.(scanInterval := interval, nextScan := now + HoursAsWritten(interval)), saveOk)
  }

  /** The largest interval, in hours, whose duration fits in 64 bits. */
  const MaxIntervalHours: int := MaxInt64 / Hour

  /** Up to about 292 years the as-written schedule is the intended one. */
  lemma HoursFitBelowLimit(interval: int)
    requires 0 < interval <= MaxIntervalHours
    ensures HoursAsWritten(interval) == interval * Hour
  {
  }

  /** An interval the dialog accepts (2562048 hours) puts the next scan
      about 292 years in the past. */
  lemma WrappedIntervalSchedulesInPast(store: UserSettings, now: Time)
    ensures Atoi("2562048") == Some(2562048)
    ensures UpdateScanIntervalAsWritten(2562048, false, store, now, true).nextScan < now
  {
    DialogReadsLimit();
    LimitWraps();
  }

  lemma DialogReadsLimit()
    ensures Atoi("2562048") == Some(2562048)
  {
    AtoiItoa(2562048);
    NatToStringStep(2, 5);
    NatToStringStep(25, 6);
    NatToStringStep(256, 2);
    NatToStringStep(2562, 0);
    NatToStringStep(25620, 4);
    NatToStringStep(256204, 8);
    var digits := [DigitChar(2), DigitChar(5), DigitChar(6), DigitChar(2), DigitChar(0), DigitChar(4), DigitChar(8)];
    assert NatToString(2562048) == digits;
    assert digits == "2562048";
  }

  lemma LimitWraps()
    ensures HoursAsWritten(2562048) < 0
  {
    assert HoursAsWritten(2562048) == 2562048 * Hour - 0x1_0000_0000_0000_0000;
  }

  /** The next scan `hours` hours after `now`, without wrap-around. */
  function NextScanAfter(now: Time, hours: int): (t: Time)
    ensures t - now == hours * Hour
    ensures t > now <==> hours > 0
  {
    now + hours * Hour
  }

  /** `updateScanInterval` with the duration computed without wrap-around:
      the interval is stored and the next scan is `interval` hours away. */
  function UpdateScanInterval(interval: int, test: bool, store: UserSettings,
                              now: Time, saveOk: bool): (r: UserSettings)
    ensures test || !saveOk ==> r == store
    ensures !test && saveOk ==> r == store.(scanInterval := interval, nextScan := r.nextScan)
    ensures !test && saveOk ==> r.scanInterval == interval && r.nextScan - now == interval * Hour
    ensures !test && saveOk && interval > 0 ==> r.nextScan > now
  {
    if test then store
    else Save(store, store.(scanInterval := interval, nextScan := NextScanAfter(now, interval)), saveOk)
  }

  /** Whether a dialog answer is an acceptable scan interval: an integer
      (as `strconv.Atoi` reads it) greater than zero. */
  function ParseInterval(res: string): (r: Option<int>)
    ensures r.Some? ==> 0 < r.value <= MaxInt64
    ensures r.Some? <==> Atoi(res).Some? && Atoi(res).value > 0
  {
    match Atoi(res)
    case None => None
    case Some(n) => if n <= 0 then None else Some(n)
  }

  /** Every positive 64-bit interval, typed in decimal, is accepted. */
  lemma ParseIntervalAccepts(n: int)
    requires 0 < n <= MaxInt64
    ensures ParseInterval(Itoa(n)) == Some(n)
  {
    AtoiItoa(n);
  }

  /** `ChangeScanInterval`: a failed dialog, a non-integer or a value not
      greater than zero leaves the settings as they are; otherwise the
      interval is updated. */
  function ChangeScanInterval(answer: Option<string>, test: bool, store: UserSettings,
                              now: Time, saveOk: bool): (r: UserSettings)
    ensures answer.None? ==> r == store
    ensures answer.Some? && ParseInterval(answer.value).None? ==> r == store
    ensures answer.Some? && ParseInterval(answer.value).Some? && !test && saveOk ==>
      r.scanInterval == ParseInterval(answer.value).value && r.nextScan > now
  {
    match answer
    case None => store
    case Some(res) =>
      match ParseInterval(res)
      case None => store
      case Some(interval) => UpdateScanInterval(interval, test, store, now, saveOk)
  }

  /** `ChangeScanInterval` as written, through the wrapping duration of
      `updateScanInterval`. */
  function ChangeScanIntervalAsWritten(answer: Option<string>, test: bool, store: UserSettings,
                                       now: Time, saveOk: bool): (r: UserSettings)
    ensures answer.None? ==> r == store
    ensures answer.Some? && ParseInterval(answer.value).None? ==> r == store
    ensures answer.Some? && ParseInterval(answer.value).Some? && !test && saveOk ==>
      r.scanInterval == ParseInterval(answer.value).value
      && r.nextScan == now + HoursAsWritten(ParseInterval(answer.value).value)
  {
    match answer
    case None => store
    case Some(res) =>
      match ParseInterval(res)
      case None => store
      case Some(interval) => UpdateScanIntervalAsWritten(interval, test, store, now, saveOk)
  }

  /** Typed into the dialog, "2562048" is accepted and the next scan is
      scheduled before now. */
  lemma ChangeScanIntervalWrapsInPast(store: UserSettings, now: Time)
    ensures ChangeScanIntervalAsWritten(Some("2562048"), false, store, now, true).scanInterval == 2562048
    ensures ChangeScanIntervalAsWritten(Some("2562048"), false, store, now, true).nextScan < now
  {
    DialogReadsLimit();
    assert ParseInterval("2562048") == Some(2562048);
    LimitWraps();
  }

  /** Below the wrap limit the program and its correction agree. */
  lemma ChangeScanIntervalAgrees(answer: Option<string>, test: bool, store: UserSettings,
                                 now: Time, saveOk: bool)
    requires answer.Some? && ParseInterval(answer.value).Some? ==>
      ParseInterval(answer.value).value <= MaxIntervalHours
    ensures ChangeScanIntervalAsWritten(answer, test, store, now, saveOk)
         == ChangeScanInterval(answer, test, store, now, saveOk)
  {
    if answer.Some? && ParseInterval(answer.value).Some? {
      HoursFitBelowLimit(ParseInterval(answer.value).value);
    }
  }

  /** `changeNextScan` as written: `settings` with the next scan moved by
      the wrapping duration is saved over whatever the store holds. */
  function ChangeNextScanAsWritten(settings: UserSettings, value: int, store: UserSettings,
                                   now: Time, saveOk: bool): (r: UserSettings)
    ensures saveOk ==> r == settings.(nextScan := now + HoursAsWritten(value))
    ensures !saveOk ==> r == store
  {
    Save(store, settings.(nextScan := now + HoursAsWritten(value)), saveOk)
  }

  /** A stored interval of 2562048 hours moves the next scan before now. */
  lemma ChangeNextScanWrapsInPast(settings: UserSettings, store: UserSettings, now: Time)
    ensures ChangeNextScanAsWritten(settings, 2562048, store, now, true).nextScan < now
  {
    LimitWraps();
  }

  /** Below the wrap limit the program and its correction agree. */
  lemma ChangeNextScanAgrees(settings: UserSettings, value: int, store: UserSettings,
                             now: Time, saveOk: bool)
    requires 0 < value <= MaxIntervalHours
    ensures ChangeNextScanAsWritten(settings, value, store, now, saveOk)
         == ChangeNextScan(settings, value, store, now, saveOk)
  {
    HoursFitBelowLimit(value);
  }

  /** `changeNextScan` without wrap-around. */
  function ChangeNextScan(settings: UserSettings, value: int, store: UserSettings,
                          now: Time, saveOk: bool): (r: UserSettings)
    ensures saveOk ==> r == settings.(nextScan := r.nextScan) && r.nextScan - now == value * Hour
    ensures !saveOk ==> r == store
  {
    Save(store, settings.(nextScan := NextScanAfter(now, value)), saveOk)
  }

  /** Whether a periodic scan is due: `now` is strictly after the next
      scheduled scan. */
  predicate ScanDue(store: UserSettings, now: Time) {
    now > store.nextScan
  }

  /** `ScanNow`. The scan's outcome (its results and error, and for the
      dialog variant the error completing the dialog) is an input. A scan
      error is returned with the results; otherwise the game state is
      updated and the results are returned without error, even when the
      update fails. */
  method ScanNow(dialogPresent: bool, results: seq<Check>, scanErr: Option<string>,
                 completeErr: Option<string>, file: Result<Catalogue>,
                 store: UserSettings, now: Time, saveOk: bool)
    returns (result: seq<Check>, err: Option<string>, store': UserSettings)
    ensures result == results
    ensures err.Some? <==> scanErr.Some? || (dialogPresent && completeErr.Some?)
    ensures err.Some? ==> store' == store
    ensures err.None? && file.Err? ==> store' == store
    ensures err.None? && file.Ok? && saveOk ==>
      && store'.points == SeveritySum(Collect(file.value, results))
      && store'.pointsHistory == store.pointsHistory + [store'.points]
      && store'.timeStamps == store.timeStamps + [now]
      && 1 <= store'.lighthouseState <= 5
      && store'.lighthouseState == LighthouseStateTransition(
           FromSettings(store).(points := store'.points, pointsHistory := store'.pointsHistory,
                                timeStamps := store'.timeStamps), now).lighthouseState
      && store' == store.(points := store'.points, pointsHistory := store'.pointsHistory,
                          timeStamps := store'.timeStamps, lighthouseState := store'.lighthouseState)
  {
    result := results;
    if scanErr.Some? {
      return result, scanErr, store;
    }
    if dialogPresent && completeErr.Some? {
      return result, completeErr, store;
    }
    var gs, updateErr;
    gs, updateErr, store' := UpdateGameState(result, file, store, now, saveOk);
    err := None;
  }

  /** `periodicScan` as written. `scanned` is the store as the scan left
      it; the rescheduling saves the settings loaded before the scan. */
  function PeriodicScanAsWritten(scanInterval: int, store: UserSettings, scanned: UserSettings,
                                 now: Time, saveOk: bool): (r: UserSettings)
    ensures !ScanDue(store, now) ==> r == store
    ensures ScanDue(store, now) && saveOk ==> r == store.(nextScan := now + HoursAsWritten(scanInterval))
    ensures ScanDue(store, now) && !saveOk ==> r == scanned
  {
    var settings := store;
    if now > settings.nextScan then
      ChangeNextScanAsWritten(settings, scanInterval, scanned, now, saveOk)
    else store
  }

  /** As written, whatever the scan saved to the game state is overwritten
      by the values from before the scan. */
  lemma PeriodicScanLosesGameState(scanInterval: int, store: UserSettings, scanned: UserSettings, now: Time)
    requires now > store.nextScan
    ensures FromSettings(PeriodicScanAsWritten(scanInterval, store, scanned, now, true)) == FromSettings(store)
  {
  }

  /** A concrete case: 5 points before the scan, 3 after it; the store ends
      with 5. */
  lemma PeriodicScanLostUpdateExample()
    ensures var store := UserSettings(1, 24, 0, 5, [5], [0], 1);
            var scanned := store.(points := 3, pointsHistory := [5, 3], timeStamps := [0, 10]);
            PeriodicScanAsWritten(24, store, scanned, 10, true).points == 5 != scanned.points
  {
  }

  /** `periodicScan` with the settings reloaded after the scan: when a
      scan is due, the game state the scan saved is kept and the next scan
      is moved `scanInterval` hours past `now`; otherwise nothing changes. */
  function PeriodicScan(scanInterval: int, store: UserSettings, scanned: UserSettings,
                        now: Time, saveOk: bool): (r: UserSettings)
    ensures !ScanDue(store, now) ==> r == store
    ensures ScanDue(store, now) && saveOk ==>
      && FromSettings(r) == FromSettings(scanned) && r.scanInterval == scanned.scanInterval
      && r.language == scanned.language && r.nextScan - now == scanInterval * Hour
    ensures ScanDue(store, now) && !saveOk ==> r == scanned
  {
    if now > store.nextScan then
      var current := scanned;
      ChangeNextScan(current, scanInterval, scanned, now, saveOk)
    else store
  }

  /** After a due periodic scan, no further scan is due until the interval
      has passed. */
  lemma PeriodicScanReschedules(scanInterval: int, store: UserSettings, scanned: UserSettings,
                                now: Time, later: Time)
    requires scanInterval > 0 && ScanDue(store, now) && now <= later < now + scanInterval * Hour
    ensures !ScanDue(PeriodicScan(scanInterval, store, scanned, now, true), later)
  {
  }

  /** `OpenReportingPage`'s guard. `isOpen` is the `ReportingPageOpen`
      flag; `buildErr` the outcome of building the page, when the
      configuration asks for a build; `runErr` the outcome of running it.
      Returns the error, whether the page process was started, and the
      flag afterwards (cleared once the page has closed). */
  function OpenReportingPage(isOpen: bool, buildErr: Option<string>, runErr: Option<string>)
    : (r: (Option<string>, bool, bool))
    ensures isOpen ==> r == (Some("reporting-page is already running"), false, true)
    ensures r.1 <==> !isOpen && buildErr.None?
    ensures !isOpen ==> !r.2
    ensures !isOpen && buildErr.None? ==> (r.0.None? <==> runErr.None?)
  {
    if isOpen then (Some("reporting-page is already running"), false, true)
    else if buildErr.Some? then (buildErr, false, false)
    else if runErr.Some? then (Some("error running reporting-page: " + runErr.value), true, false)
    else (None, true, false)
  }
}
