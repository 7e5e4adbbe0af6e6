# InfoSec-Agent core, modelled in Dafny

InfoSec-Agent is a Windows security and privacy checker. It has a Go back end and a JavaScript reporting page. The back end runs a fixed list of checks, and each check yields a result record (`IssueID`, `ResultID`, details, error). It resolves every result to a severity through a JSON catalogue, scores the scan and moves the "lighthouse" game state. The reporting page shows the results: the issue tables, the issue page and the security dashboard.

This project models that pipeline as immutable data and pure functions. It covers:

- the result record and its constructors (`Checks`);
- the scan loop with its progress sink (`Scan`);
- the severity resolver (`Database`);
- points, history and lighthouse state (`Gamification`);
- order-preserving de-duplication (`Utils`);
- version comparison, name normalisation, rune substrings and "highest version per name" selection (`Outdated`);
- the registry-key and file test doubles (`Registry`, `FileMock`);
- the permission, UAC, Remote Desktop, SMB and Firefox probes once their command, registry or file output is an input (`Permission`, `Probes`, `Firefox`);
- the tray's language, scan-interval, periodic-scan and scan-now decisions (`Tray`, over the settings record in `Settings`);
- the reporting page's pure helpers (`IssuePage`, `IssuesPage`, `Dashboard`).

`Strings` holds the Go and JavaScript string library behaviour the rest relies on: `strings.TrimSpace`, `strings.Split`/`Join`, `strconv.Atoi`/`Itoa` and `fmt.Sscanf("%d")`.

Clocks, dialogs, the file system, the registry and command execution become parameters:

- `now` is an integer count of nanoseconds;
- a dialog is a pair of fallible functions;
- a command executor is a function from program and argument to a `Result`;
- a settings save is a boolean that says whether it succeeded.

## Model

Some members only hand back what the record they read already holds, so their definitions are the whole model. They are `Outdated.CombineSoftwareList`, `Registry.Close` and `Registry.Stat`, `FileMock.Size`, `FileMock.Write`, `FileMock.Stat` and `FileMock.ReadDir`, and `Dashboard.SetMaxInterval`. They have no row below.

| member | source | states |
|---|---|---|
| Checks.NewCheckResult | backend/scan/scan_test.go:132-139 | a successful result carries no error and exactly the given issue id, result id and details |
| Checks.NewCheckErrorf | backend/checks/windows/permission_test.go:192 | an error result carries the error and message, result id -1 and no details |
| Checks.NewNamedErrorf | checks/permission.go:27-31 | a legacy error result carries the check's name, the error and message, and no details |
| Scan.RunScan | backend/scan/scan.go:113-148 | checks run in order and result i comes from check i. A text failure before check k returns exactly k results; a value failure after check k returns k+1. With no failure every check's result is returned. Texts read "Running check i of n"; values are the progress percentages |
| Scan.Percent | backend/scan/scan.go:131-132 | the progress percentage is at most 100 and is 100 exactly after the last check |
| Scan.PercentMonotone | backend/scan/scan.go:131-132 | progress never decreases from one check to the next |
| Scan.ProgressRisesToFull | backend/scan/scan.go:119-137 | the reported progress values are non-decreasing and the last is 100 |
| Database.TruncToInt | backend/database/database.go:113-118 | `int(sev)` truncates the decimal severity toward zero |
| Database.Severity | backend/database/database.go:92-117 | a severity is found only for a check without error whose issue id is in the catalogue |
| Database.CollectSound | backend/database/database.go:92-119 | every output entry comes from an input check without error, with that check's issue id and catalogued severity |
| Database.CollectComplete | backend/database/database.go:92-119 | every check whose severity resolves is listed |
| Database.CollectAppend | backend/database/database.go:92-119 | the pairs of earlier checks come before those of later checks, and one check gives its own pair or none |
| Database.CollectSkipsErrors | backend/database/database.go:93-96 | checks that carry errors contribute nothing |
| Database.GetData | backend/database/database.go:73-122 | a catalogue read or parse failure returns the error and no data; otherwise the resolved entries in input order, with no error |
| Gamification.SeveritySum | backend/gamification/gamification.go:97-102 | the points are between 0 and 3 per entry |
| Gamification.SeveritySumIgnores | backend/gamification/gamification.go:98-101 | severities outside [0,4) add nothing to the points |
| Gamification.SeveritySumAppend | backend/gamification/gamification.go:97-102 | the points of a concatenation are the sum of the parts' points |
| Gamification.PointCalculation | backend/gamification/gamification.go:89-107 | points restart at 0 and sum the in-range severities. On success exactly one history entry (the new points) and one timestamp (`now`) are appended. On a lookup failure the error is returned and nothing is appended |
| Gamification.ActivityPersists | backend/gamification/gamification.go:142-153 | once the first scan is more than a week old, it stays so at every later time |
| Gamification.ActivityIgnoresLaterStamps | backend/gamification/gamification.go:149-152 | only the first timestamp decides sufficient activity |
| Gamification.LighthouseStateTransition | backend/gamification/gamification.go:116-132 | the state is in 1..5 and no other field changes. Without sufficient activity it is 1. With it, points below 10, 20, 30, 40 give 5, 4, 3, 2 and more give 1 |
| Gamification.LighthouseMonotone | backend/gamification/gamification.go:118-129 | more points never give a better lighthouse state |
| Gamification.IntoSettings | backend/gamification/gamification.go:51-55 | the game state is written into the settings and language, interval and next scan are kept |
| Gamification.UpdateGameState | backend/gamification/gamification.go:33-61 | a calculation error is returned without transition or save. Otherwise it returns the new points and logs, with the lighthouse state the transition gives for them at `now`, and no error. A failed save leaves the store unchanged |
| Settings.Sub | backend/gamification/gamification.go:152 | `time.Since` saturates at the 64-bit duration bounds |
| Utils.FirstIndex | utils/utils.go:164-176 | the first position of a present string |
| Utils.DedupCorrect | utils/utils.go:164-176 | de-duplication has no duplicates, the same members as its input, and first-occurrence order |
| Utils.DedupUnique | utils/utils.go:168-174 | only one sequence has those three properties |
| Utils.SameOrderedMembers | utils/utils.go:168-174 | two duplicate-free sequences with the same members, ordered by first occurrence in one source, are equal |
| Utils.DedupOfNoDups | utils/utils.go:168-174 | duplicate-free input is returned unchanged |
| Utils.DedupIdempotent | utils/utils.go:164-176 | de-duplicating twice equals de-duplicating once |
| Utils.RemoveDuplicateStr | utils/utils.go:164-176 | the loop computes the order-preserving de-duplication, no longer than its input |
| Strings.WrapInt64 | backend/tray/tray.go:545 | 64-bit two's-complement wrap: identity in range, congruent modulo 2^64 |
| Strings.TrimSpace | backend/checks/programs/outdated_programs.go:302 | the trimmed text has no surrounding white space and is no longer than its input |
| Strings.TrimSpaceIsSlice | backend/checks/programs/outdated_programs.go:302 | the trimmed text is the contiguous part of its input that starts after the leading white space |
| Strings.TrimSpaceOfPadded | checks/uac_check.go:25 | trimming strips exactly the white-space padding around a trimmed core |
| Strings.ToLower | backend/checks/browsers/firefox/extensions.go:91 | lower-casing keeps the length, maps every character and leaves no upper-case letter |
| Strings.IndexOf | checks/permission.go:69-70 | the first occurrence of the separator, or none when it does not occur |
| Strings.SplitJoin | backend/checks/programs/outdated_programs.go:307-308 | joining the pieces of a split with the separator restores the text |
| Strings.SplitPiecesFree | backend/checks/programs/outdated_programs.go:307-308 | no piece of a split contains the separator |
| Strings.BeforeFirst | checks/permission.go:69-70 | the prefix before the first separator, containing no separator |
| Strings.AfterLast | checks/permission.go:104-114 | a suffix after the last separator, containing no separator |
| Strings.Atoi | backend/tray/tray.go:297 | a parsed number lies in the 64-bit range and comes from non-empty text |
| Strings.AtoiRejectsNoDigits | backend/tray/tray.go:297 | an empty text or a lone sign is refused |
| Strings.AtoiRejectsNonDigit | backend/tray/tray.go:297 | any character other than a digit after the optional leading sign (a blank, a second sign, trailing text) makes the text refused |
| Strings.AtoiSignedDigits | backend/tray/tray.go:297 | an optional sign and digits, leading zeros included, give the signed value of the digits when it fits in 64 bits, and are refused otherwise |
| Strings.AtoiItoa | backend/tray/tray.go:297 | parsing a rendered 64-bit number gives it back |
| Strings.DigitsOfNat | backend/tray/tray.go:297 | the decimal digits of a natural number read back as that number |
| Outdated.ScanInt | backend/checks/programs/outdated_programs.go:316-321 | `Sscanf("%d")` yields a 64-bit value |
| Outdated.ScanIntItoa | backend/checks/programs/outdated_programs.go:316-321 | a component that starts with a rendered number scans to that number |
| Outdated.CompareVersions | backend/checks/programs/outdated_programs.go:306-330 | comparison returns only -1, 0 or 1 |
| Outdated.CompareReflexive | backend/checks/programs/outdated_programs.go:314-329 | a version compares equal to itself |
| Outdated.CompareAntisymmetric | backend/checks/programs/outdated_programs.go:314-329 | swapping the arguments negates the result |
| Outdated.CompareTransitive | backend/checks/programs/outdated_programs.go:314-329 | "at least" and "greater" are transitive |
| Outdated.ZeroPadding | backend/checks/programs/outdated_programs.go:314-321 | trailing zero components never change a comparison |
| Outdated.TrailingZeroIgnored | backend/checks/programs/outdated_programs.go:314-321 | "1.2" and "1.2.0" compare equal |
| Outdated.CompareVersionsLoop | backend/checks/programs/outdated_programs.go:306-330 | the loop as written computes the first differing component's sign, with missing components read as 0 |
| Outdated.Filter | backend/checks/programs/outdated_programs.go:293-301 | only letters, digits and white space survive, and never an upper-case letter from lower-cased input |
| Outdated.Normalize | backend/checks/programs/outdated_programs.go:291-303 | the normalised name is lower-case, holds only letters, digits and white space, and has no surrounding white space |
| Outdated.NormalizeIdempotent | backend/checks/programs/outdated_programs.go:291-303 | normalising twice equals normalising once |
| Outdated.Substr | backend/checks/programs/outdated_programs.go:567-579 | "" from or past the end; otherwise min(length, len-start) runes of the input from start |
| Outdated.SubstrAdjacent | backend/checks/programs/outdated_programs.go:567-579 | adjacent substrings concatenate to the longer one |
| Outdated.CompareVersionsPreorder | backend/checks/programs/outdated_programs.go:306-330 | version comparison is a total preorder |
| Outdated.SelectEntriesKept | backend/checks/programs/outdated_programs.go:270-280 | each kept entry has a version at least every other of its name and beats every earlier one, so ties keep the first seen |
| Outdated.SelectCorrect | backend/checks/programs/outdated_programs.go:257-280 | exactly the normalised names of eligible entries are kept: non-empty name and version, not "microsoft defender". Each keeps its highest, first-seen version |
| Outdated.OutdatedSoftwareResult | backend/checks/programs/outdated_programs.go:282-287 | one "name \| version" line per kept program and nothing else |
| Registry.GetStringValue | registrymock/registryMock.go:78-80 | never fails; the stored string, or "" when absent |
| Registry.GetBinaryValue | registrymock/registryMock.go:83-85 | never fails; the stored bytes, or none when absent |
| Registry.GetIntegerValue | registrymock/registryMock.go:88-90 | never fails; the stored integer, or 0 when absent |
| Registry.FindSubKey | registrymock/registryMock.go:93-100 | the first subkey of that name, or none exists |
| Registry.FirstNamedUnique | registrymock/registryMock.go:94-98 | the first subkey of a name is unique |
| Registry.OpenKey | registrymock/registryMock.go:93-100 | opens iff a subkey of that name exists, and returns the first such; otherwise "key not found" |
| Registry.SubKeyNames | registrymock/registryMock.go:143-154 | the names of all subkeys, in order |
| Registry.ReadSubKeyNames | registrymock/registryMock.go:143-154 | the first count names in order; all of them for a negative or large count; never more names than subkeys |
| Registry.ReadValueNames | registrymock/registryMock.go:105-130 | duplicate-free names of string, binary and integer values, all of them for maxCount <= 0 or past the total, exactly maxCount otherwise |
| Registry.UniqueCount | registrymock/registryMock.go:125-129 | a duplicate-free listing of a set has the set's size |
| Permission.AppKeyName | checks/permission.go:87-92 | the application key name is the application name itself |
| Permission.NonPackagedAppNames | checks/permission.go:104-115 | for each non-packaged subkey, in order, its name after the last "#" |
| Permission.Contribution | checks/permission.go:44-71 | not "Allow" contributes nothing. A packaged application contributes its name before the first "_". The NonPackaged entry contributes its subkeys' names |
| Permission.GrantedMembers | checks/permission.go:41-72 | the collected names are exactly the union of every application's contribution |
| Permission.AppNames | checks/permission.go:44-71 | one application's loop step computes its contribution |
| Permission.GrantedNames | checks/permission.go:41-72 | the loop computes the collected names |
| Permission.CheckPermission | checks/permission.go:22-76 | a key that fails to open gives an error result. Otherwise the result lists the granted applications, de-duplicated in first-occurrence order |
| FileMock.Read | backend/mocking/file.go:251-263 | a set error returns (0, error); an empty buffer returns (0, EOF). Otherwise min(len p, len buffer) bytes move from the buffer's front into p |
| FileMock.ReadInTwo | backend/mocking/file.go:251-263 | two reads that drain the buffer deliver what one large read does |
| FileMock.EmptyReadKeepsFile | backend/mocking/file.go:251-263 | an empty read changes nothing |
| FileMock.WriteIgnoresData | backend/mocking/file.go:276-278 | the data written never matters |
| FileMock.Close | backend/mocking/file.go:227-237 | closing a nil mock is ErrInvalid. Closing an open one marks it closed and returns its error; closing a closed one returns ErrClosed and changes nothing |
| FileMock.CloseTwice | backend/mocking/file.go:227-237 | a second close reports ErrClosed |
| FileMock.SeekMinOffsetPanics | backend/mocking/file.go:309-313 | the smallest 64-bit offset passes the whence-2 guard and the slice panics |
| FileMock.SeekAsWritten | backend/mocking/file.go:293-319 | as written: it panics exactly for whence 2, no set error, offset MinInt64 and any 64-bit length. A success returns the remaining length and changes only the buffer |
| FileMock.Seek | backend/mocking/file.go:293-319 | a set error is returned first and any other whence is "invalid whence". Whence 0/1 drop the first offset bytes when 0 <= offset <= len; whence 2 keeps len+offset bytes when -len <= offset <= 0. Otherwise EOF with the buffer unchanged. Success returns the new length |
| FileMock.SeekAgrees | backend/mocking/file.go:293-319 | the corrected seek equals the code as written on every offset but the smallest |
| FileMock.SeekForwardTwice | backend/mocking/file.go:299-302 | two forward seeks from the start equal one seek by their sum |
| FileMock.ReadAfterSeek | backend/mocking/file.go:251-302 | a read after seeking to k returns the bytes from position k |
| FileMock.Copy | backend/mocking/file.go:334-345 | a source read error or EOF, then a destination read error or EOF, is returned with 0; otherwise the stored count and error |
| Firefox.AdblockerFirefox | backend/checks/browsers/firefox/extensions.go:80-96 | true iff the lower-cased name contains one of the six listed ad-blocker names |
| Firefox.AdblockerIgnoresCase | backend/checks/browsers/firefox/extensions.go:91 | detection ignores the case of the extension name |
| Firefox.UBlockOriginIsAdblocker | backend/checks/browsers/firefox/extensions.go:80-96 | "uBlock Origin" is recognised |
| Firefox.AddonLines | backend/checks/browsers/firefox/extensions.go:59-61 | one "name,type,creator,active" line per addon, in order |
| Firefox.CountPositive | checks/browsers/firefox/extensions_firefox.go:56-64 | the ad-blocker count is positive iff some addon is an ad blocker |
| Firefox.ScanAddons | checks/browsers/firefox/extensions_firefox.go:56-64 | the loop collects the addon lines, whether an ad blocker was seen and how many |
| Firefox.ExtensionFirefox | backend/checks/browsers/firefox/extensions.go:27-69 | no profile, an open failure or a decode failure makes both results errors. Otherwise the list has result 0 and one line per addon, and the ad-block result is 0 iff an ad blocker is present, else 1 |
| Firefox.LegacyExtensionFirefox | checks/browsers/firefox/extensions_firefox.go:24-68 | as above for issues 27 and 28; the ad-block result id is the number of ad blockers, with detail "true" iff it is positive |
| Probes.UacCheck | checks/uac_check.go:14-36 | an executor error gives an error result for issue 13. Otherwise the result is in 0..3, and the trimmed output "0", "2", "5" gives 0, 1, 2 exactly |
| Probes.UacIgnoresPadding | checks/uac_check.go:25 | white space around the output never changes the result |
| Probes.UacDependsOnTrim | checks/uac_check.go:25 | outputs that trim alike give the same result |
| Probes.UacLevels | checks/uac_check.go:25-35 | "0", "2", "5" and any other output give results 0, 1, 2 and 3 with their messages |
| Probes.RemoteDesktopCheck | checks/remote_desktop_check.go:12-32 | a missing key gives an error result for issue 11. fDenyTSConnections 0 gives result 0 "enabled"; any other value gives result 1 "disabled" |
| Probes.SmbEnabled | checks/smb_check.go:46-62 | a query failure is returned. Otherwise "<name>: enabled" iff the trimmed fourth line is exactly "True", else "<name>: not enabled" |
| Probes.SmbCheck | checks/smb_check.go:20-33 | the first failing query's error, else the SMB1 and SMB2 statuses in that order |
| Probes.SmbStopsAtFirstError | checks/smb_check.go:21-25 | after an SMB1 failure the SMB2 query does not matter |
| Tray.LanguageIndex | backend/tray/tray.go:410-426 | every name maps into 0..6: a listed name to its position, anything else to 1 |
| Tray.LanguageRoundTrip | backend/tray/tray.go:394-424 | the i-th listed name maps back to i |
| Tray.ChangeLanguage | backend/tray/tray.go:387-440 | a cancelled dialog changes nothing. In test mode the settings are untouched; otherwise a successful save stores the new index |
| Tray.HoursFitBelowLimit | backend/tray/tray.go:545 | an interval below the wrap limit converts to hours exactly |
| Tray.WrappedIntervalSchedulesInPast | backend/tray/tray.go:537-554 | the accepted interval 2562048 schedules the next scan before now |
| Tray.NextScanAfter | backend/tray/tray.go:545 | the next scan lies interval hours after now, and is later iff the interval is positive |
| Tray.HoursAsWritten | backend/tray/tray.go:545 | as written: the hours as a 64-bit duration, congruent to the exact product modulo 2^64 and equal to it when it fits |
| Tray.UpdateScanIntervalAsWritten | backend/tray/tray.go:537-554 | as written: test mode changes nothing. Otherwise a successful save stores the interval and puts the next scan at now plus the wrapped duration |
| Tray.UpdateScanInterval | backend/tray/tray.go:537-554 | test mode or a failed save changes nothing. Otherwise the interval is stored and the next scan is exactly interval hours ahead |
| Tray.ParseInterval | backend/tray/tray.go:297-311 | accepted iff the text parses as an integer greater than 0 |
| Tray.ParseIntervalAccepts | backend/tray/tray.go:297-311 | every positive 64-bit interval, rendered, is accepted |
| Tray.ChangeScanIntervalAsWritten | backend/tray/tray.go:271-323 | a cancelled dialog or an invalid answer leaves the settings unchanged. A valid one stores the interval and puts the next scan the wrapped 64-bit duration after now |
| Tray.ChangeScanIntervalWrapsInPast | backend/tray/tray.go:271-323 | the answer "2562048" is accepted and schedules the next scan before now |
| Tray.ChangeScanIntervalAgrees | backend/tray/tray.go:271-323 | for intervals up to 2562047 hours the program and its correction give the same settings |
| Tray.ChangeScanInterval | backend/tray/tray.go:271-323 | corrected: a cancelled dialog or an invalid answer leaves the settings unchanged; a valid one stores the interval and a later next scan |
| Tray.ChangeNextScanAsWritten | backend/tray/tray.go:465-472 | a successful save stores the given settings with the next scan moved by the wrapped 64-bit duration; a failed one leaves the store |
| Tray.ChangeNextScanWrapsInPast | backend/tray/tray.go:465-472 | an interval of 2562048 hours moves the next scan before now |
| Tray.ChangeNextScanAgrees | backend/tray/tray.go:465-472 | for intervals up to 2562047 hours the program and its correction give the same settings |
| Tray.ChangeNextScan | backend/tray/tray.go:465-472 | corrected: the saved settings differ only in a next scan that lies value hours ahead |
| Tray.ScanNow | backend/tray/tray.go:336-367 | the scan's results are always returned. Only a scan or dialog failure is an error. A scoring failure leaves the store unchanged; a successful score and save stores the new game state and nothing else, with the lighthouse state the transition gives for the new points and logs |
| Tray.PeriodicScanLosesGameState | backend/tray/tray.go:481-498 | as written, a due periodic scan saves the settings it loaded before scanning and so discards the scan's game state |
| Tray.PeriodicScanLostUpdateExample | backend/tray/tray.go:481-498 | a concrete scan whose new points are lost |
| Tray.PeriodicScanAsWritten | backend/tray/tray.go:481-498 | as written: nothing happens unless a scan is due. A successful save then stores the settings from before the scan with only the next scan moved, discarding the scan's game state; a failed save leaves the store as the scan left it |
| Tray.PeriodicScan | backend/tray/tray.go:481-498 | a scan runs only when now is after the next scan. Rescheduling keeps the scan's game state and puts the next scan interval hours ahead |
| Tray.PeriodicScanReschedules | backend/tray/tray.go:481-498 | after a due scan no scan is due again until the interval has passed |
| Tray.OpenReportingPage | backend/tray/tray.go:181-224 | an open page refuses with "reporting-page is already running". Otherwise the page runs iff the build succeeds, the error reports the run, and the flag is cleared afterwards |
| IssuePage.NextStep | reporting-page/frontend/src/js/issue.js:63-73 | the counter advances by one iff it is below the last step, and stays in range |
| IssuePage.PreviousStep | reporting-page/frontend/src/js/issue.js:76-81 | the counter goes back by one iff it is above 0, and never below 0 |
| IssuePage.StepsUndo | reporting-page/frontend/src/js/issue.js:63-81 | a step that moved is undone by the opposite step |
| IssuePage.NextTimesFromStart | reporting-page/frontend/src/js/issue.js:63-73 | k steps forward from the start reach min(k, last step) |
| IssuePage.At | reporting-page/frontend/src/js/issue.js:587-600 | indexing a list gives a value exactly for indices in range |
| IssuePage.ShortWindows10SolutionUndefined | reporting-page/frontend/src/js/issue.js:587-600 | as written, a Windows 10 list shorter than the index yields undefined |
| IssuePage.GetVersionSolutionAsWritten | reporting-page/frontend/src/js/issue.js:587-600 | as written: version "10" with a Windows 10 list gives that list's entry, or `undefined` past its end; otherwise the general list's entry, "" past its end |
| IssuePage.GetVersionSolution | reporting-page/frontend/src/js/issue.js:587-600 | corrected: version "10" with a Windows 10 list gives that list's entry, otherwise the general list's; "" when the index is out of range |
| IssuePage.VersionSolutionAgrees | reporting-page/frontend/src/js/issue.js:587-600 | the corrected solution agrees with the code wherever the code gives text, and is "" where it gives undefined |
| IssuePage.SolutionIgnoresWindows10ListElsewhere | reporting-page/frontend/src/js/issue.js:587-600 | the Windows 10 list matters only for version "10" |
| IssuePage.VersionDirectoryTen | reporting-page/frontend/src/js/issue.js:562-579 | the image directory is "windows-10/" iff the version is "10" |
| IssuePage.GetVersionScreenshot | reporting-page/frontend/src/js/issue.js:562-579 | "" without a screenshot at the index, else directory + "windows-<version>/" + file, from the Windows 10 list only for version "10" |
| IssuePage.ScreenshotIgnoresWindows10ListElsewhere | reporting-page/frontend/src/js/issue.js:562-579 | the Windows 10 screenshots matter only for version "10" |
| IssuePage.ParseIntItoa | reporting-page/frontend/src/js/issue.js:283 | `parseInt` skips leading white space and reads a decimal number up to the first non-digit, unless a lone 0 is followed by the "x" of a hex mark |
| IssuePage.ParseIntHex | reporting-page/frontend/src/js/issue.js:283 | without a radix, `parseInt` reads the digits after a "0x" or "0X" mark in base 16 |
| IssuePage.HexIdFindsDecimal | reporting-page/frontend/src/js/issue.js:281-288 | the issue id "0x1A" finds the same result as "26" |
| IssuePage.FindResultId | reporting-page/frontend/src/js/issue.js:281-288 | the result id of the first item whose issue id parses to the same number, and none iff no item does |
| IssuePage.FindIgnoresPadding | reporting-page/frontend/src/js/issue.js:281-288 | an issue id with leading white space, or trailing text that neither adds a digit nor makes a hex mark, finds the same result |
| IssuePage.LeadingValues | reporting-page/frontend/src/js/issue.js:440-462 | the lines before the first registry header |
| IssuePage.CisRegistryTable | reporting-page/frontend/src/js/issue.js:440-462 | one group per header line, each holding the following non-header lines; the groups flatten to the input minus the lines before the first header |
| IssuePage.SplitRuns | reporting-page/frontend/src/js/issue.js:472 | splitting on runs of spaces and commas yields pieces without separators |
| IssuePage.SplitRunsJoin | reporting-page/frontend/src/js/issue.js:472 | splitting words joined by spaces gives the words back |
| IssuePage.IndexOfToken | reporting-page/frontend/src/js/issue.js:473-474 | the first position of a token, and none iff the token is absent |
| IssuePage.PortRowOf | reporting-page/frontend/src/js/issue.js:472-480 | a row exists iff "process:" and "port:" are present; the process is the next token, the ports the distinct tokens after "port:" |
| IssuePage.ProcessPortsSound | reporting-page/frontend/src/js/issue.js:469-484 | every row comes from an input line |
| IssuePage.ProcessPortsAppend | reporting-page/frontend/src/js/issue.js:469-484 | the rows of earlier lines come before those of later lines, and one line gives its own row or none |
| IssuePage.ProcessPortsComplete | reporting-page/frontend/src/js/issue.js:469-484 | every line with both markers yields its row |
| IssuePage.Hosts | reporting-page/frontend/src/js/issue.js:493-499 | one host per even position, taken from the position after it |
| IssuePage.CookieHosts | reporting-page/frontend/src/js/issue.js:491-511 | each distinct host once, in first-seen order, and exactly the hosts at odd positions |
| IssuePage.RiskIndicatorOf | reporting-page/frontend/src/js/issue.js:126-131 | severities 0..3 get their own indicator; anything else is info |
| IssuePage.IndicatorRoundTrip | reporting-page/frontend/src/js/issue.js:126-131 | an indicator's data severity maps back to it |
| IssuesPage.ToRiskLevel | reporting-page/frontend/src/js/issues.js:137-150 | a label exactly for 0..4 |
| IssuesPage.RiskLevelRoundTrip | reporting-page/frontend/src/js/issues.js:137-150 | each level's label reads back as that level |
| IssuesPage.CatalogueFor | reporting-page/frontend/src/js/issues.js:163-187 | language 0..6 selects its catalogue, anything else en-GB |
| IssuesPage.RowFor | reporting-page/frontend/src/js/issues.js:189-214 | an issue gets a row iff it is catalogued and its severity matches the table (non-zero for issues, zero otherwise) |
| IssuesPage.FillTableSound | reporting-page/frontend/src/js/issues.js:160-215 | every row comes from an input issue |
| IssuesPage.FillTableComplete | reporting-page/frontend/src/js/issues.js:160-215 | every issue that qualifies gets its row |
| IssuesPage.FillTableAppend | reporting-page/frontend/src/js/issues.js:160-215 | the rows of earlier issues come before those of later issues, and one issue gives its own row or none |
| IssuesPage.FillTablePartition | reporting-page/frontend/src/js/issues.js:189-214 | a known issue is in the issue table iff its severity is non-zero, in the other iff zero |
| IssuesPage.FillTableCounts | reporting-page/frontend/src/js/issues.js:189-214 | the two tables together hold one row per known issue |
| IssuesPage.FilterSelected | reporting-page/frontend/src/js/issues.js:300-307 | exactly the issues whose severity's box is ticked survive |
| IssuesPage.ChangeTable | reporting-page/frontend/src/js/issues.js:289-316 | every row has a ticked severity in 1..4, and every ticked known issue is shown |
| IssuesPage.FlipTwice | reporting-page/frontend/src/js/issues.js:241-242 | the direction alternates |
| IssuesPage.SortSorted | reporting-page/frontend/src/js/issues.js:243-265 | the insertion sort orders its rows by the comparison |
| IssuesPage.ColumnComparisonConsistent | reporting-page/frontend/src/js/issues.js:244-264 | the column comparison is a consistent order |
| IssuesPage.SortTable | reporting-page/frontend/src/js/issues.js:239-272 | the direction flips (unset becomes ascending); the rows are a permutation of the input, ordered by the column in the new direction |
| IssuesPage.RiskSortOrder | reporting-page/frontend/src/js/issues.js:255-263 | sorting on risk orders high, medium, low, info ascending and the reverse descending |
| IssuesPage.RiskRanksOrdered | reporting-page/frontend/src/js/issues.js:255-263 | the ranks of High, Medium, Low and Info rise in that order; Acceptable has none |
| IssuesPage.ChangeTableRiskRanked | reporting-page/frontend/src/js/issues.js:289-316 | every row of the filtered table has a risk rank |
| Dashboard.StatusOf | reporting-page/frontend/src/js/security-dashboard.js:247-287 | Critical iff more than one high risk; otherwise medium, low and informative by the same strict rule in order; else Acceptable |
| Dashboard.AdjustWithRiskCounters | reporting-page/frontend/src/js/security-dashboard.js:239-287 | the counters are shown as stored, and the status in its level's colour; white text for the two most serious statuses |
| Dashboard.StatusMonotone | reporting-page/frontend/src/js/security-dashboard.js:247-287 | more findings never make the status less serious |
| Dashboard.SingleFindingsAcceptable | reporting-page/frontend/src/js/security-dashboard.js:248-272 | the thresholds are strict: one finding per level is Acceptable |
| Dashboard.StatusIgnoresRest | reporting-page/frontend/src/js/security-dashboard.js:247-287 | only the four risk counters decide the status |
| Dashboard.StatusColoursWalk | reporting-page/frontend/src/js/security-dashboard.js:247-287 | clearing high, then medium, then low walks the background through the level colours |

## Left out

- Probe I/O is not modelled: PowerShell and winget commands, the real registry, file reads, SQLite, HTTP, `FirefoxFolder`, `CopyFile` and `CurrentUsername`. Their outputs are parameters.
- JSON decoding is not modelled. The severity catalogue is a map of already-decoded values, and a JSON number is the exact rational `num / den`. `Database.TruncToInt` models `int(sev)`, truncating a non-integral severity toward zero. The binary rounding of `float64` is not modelled.
- Scan.Percent: progress is the integer (i+1)*100/total. The source computes it in `float64` and truncates, which can come out one lower where the floating-point quotient falls just below an integer.
- The clock is a parameter `now` in nanoseconds; `time.Since` and `Add` become integer arithmetic with Go's saturation and wrap where it matters.
- The systray loop, signals, goroutines, zenity dialogs, the DOM, event wiring, charts, localisation lookups and logging are not modelled. A dialog answer is an `Option<string>` (none when cancelled), and a settings save is a boolean outcome.
- Settings persistence is an explicit record plus a fallible save. `LoadUserSettings` is the `store` argument.
- The root scan/scan.go only prints results, and is not modelled.
- The check registry of backend/scan/scan.go is abstract: an ordered list of already-computed results. Its calls into the individual checks are not modelled.
- Outdated: the overlap and uniqueness statistics are not modelled because they are only printed. `cleanVersion` (a regular expression) and the retrieve* parsers are not modelled because they are fused with command execution.
- Outdated.OutdatedSoftwareResult: the output order of the kept entries follows Go map iteration, which is unspecified. It is a parameter, and the contract states membership and count, not positions.
- Registry.ReadValueNames: the enumeration order of each value map is a parameter for the same reason; the contract says which names appear, not in what order beyond a prefix of that enumeration.
- Outdated.ScanInt: `%d`'s skipping of leading white space is not modelled; a component that starts with white space reads as 0 here.
- Unicode: white space is Go's `unicode.IsSpace` exactly, but letters, digits and case mapping are ASCII only, in `normalize`, `strings.ToLower` and `toLowerCase`. JavaScript's `parseInt` white-space set is taken to be Go's.
- IssuePage.ParseIntItoa: `parseInt`'s loss of precision above 2^53 is not modelled; ids are exact integers. The "0x" and "0X" marks switch to base 16 as in JavaScript, so the lemma excludes a lone 0 followed by "x" or "X".
- FileMock.Size: `FileInfoMock` holds a copy of the file, where Go holds a `*FileMock` pointer. A later `Read` changes what the Go `Size()` reports but not what the model's does.
- Scan.RunScan: the error return of `json.MarshalIndent` is not modelled; marshalling a slice of check records cannot fail, and the JSON text is only logged.
- Gamification.UpdateGameState: the `PointCalculationGetter` parameter is fixed to the real point calculation, `Gamification.PointCalculation`. Other getters, which only tests inject, are not modelled.
- Outdated.Substr requires a start and length that are not negative whenever the start lies inside the string, because there the source's slice would panic.
- The legacy `checks` package identifies results by name and not by number. Its results are a separate `NamedCheck` record.
- Permission: `OpenRegistryKey` is taken to be the mock's `OpenKey`. The mock's reads never fail, so the error branches after them are unreachable and are not modelled.
- Probes.RemoteDesktopCheck: the branch for a failed `fDenyTSConnections` read is unreachable against the registry double and is not modelled.
- Firefox.ExtensionFirefox and Firefox.LegacyExtensionFirefox require a non-empty profile list when the folder lookup succeeds, because the source indexes the first profile without a check.
- Probes.SmbEnabled and Probes.SmbCheck require at least four CRLF-separated output lines, because the source indexes the fourth line without a check.
- FileMock.Copy reads the destination rather than writing it; this is modelled as written.
- `localeCompare` is a `collate` parameter, required to be a consistent order. `sortTable` is modelled as an insertion sort over a consistent comparison.
- IssuesPage.SortTable: the relative order of rows that compare equal is not stated.
- IssuesPage.SortTable: comparisons between unknown risk labels give NaN in the source. They are excluded by requiring every row on the risk column to carry a known label, which `IssuesPage.ChangeTableRiskRanked` shows the filtered table always does.
- The cookies table's grouping by JavaScript object keys is modelled in insertion order; integer-like host names, which JavaScript orders first, are not modelled.
- IssuePage.CookieHosts: the test `!cookiesByHost[host]` runs on a plain object, so a host named like an inherited property ("constructor", "toString", "__proto__") finds the inherited value, is never added and gets no row. The model lists such hosts like any other.
- An absent `WindowsVersion` in session storage is modelled as its stored text (for example "undefined"), which is never "10".
- The dashboard's labels are a localisation key plus the fallback text; the lookup itself is not modelled.
- backend/database/database_test.go and backend/scan/scan_test.go refer to fields and functions absent from the code. reporting-page/frontend/test/issues.test.js expects HTML from `toRiskLevel`, but the code returns plain labels. These tests are not used as contracts.
- `utils.RemoveDuplicateStr`'s Go map is modelled as membership in the prefix already seen.

## Findings

| source | as written | input that shows it | evidently intended | confidence | as-written member | corrected member |
|---|---|---|---|---|---|---|
| backend/tray/tray.go:537-554 | `time.Duration(interval) * time.Hour` wraps in 64 bits for intervals from 2562048 hours up, and the wrapped value schedules the next scan in the past | the answer "2562048", which the validation at lines 297-311 accepts | the next scan lies interval hours after now, or large intervals are rejected | not executed | Tray.UpdateScanIntervalAsWritten, Tray.WrappedIntervalSchedulesInPast, Tray.ChangeScanIntervalAsWritten, Tray.ChangeScanIntervalWrapsInPast, Tray.ChangeNextScanAsWritten, Tray.ChangeNextScanWrapsInPast | Tray.UpdateScanInterval, Tray.NextScanAfter, Tray.ChangeScanInterval, Tray.ChangeNextScan |
| backend/tray/tray.go:481-498 | `periodicScan` loads the settings, runs `ScanNow` (which saves the new game state), and then saves the settings it loaded, with only the next scan changed | a due scan that changes the points from 5 to 3: the saved points stay 5 | rescheduling keeps the game state the scan just saved | not executed | Tray.PeriodicScanAsWritten, Tray.PeriodicScanLosesGameState, Tray.PeriodicScanLostUpdateExample | Tray.PeriodicScan, Tray.PeriodicScanReschedules |
| backend/mocking/file.go:309-313 | the whence-2 guard negates a 64-bit offset; the smallest offset is its own negation, so the guard passes and the slice below zero panics | `Seek(-9223372036854775808, 2)` on a mock without error | an offset below minus the length returns EOF, like every other out-of-range offset | not executed | FileMock.SeekAsWritten, FileMock.SeekMinOffsetPanics | FileMock.Seek, FileMock.SeekAgrees |
| reporting-page/frontend/src/js/issue.js:587-600 | for version "10" with a Windows 10 solution list, the entry is returned without the "" fallback that the general list gets | a guide with one general step, an empty Windows 10 list, index 0 and version "10": the result is `undefined` | "" when the index is past the end of the chosen list | not executed | IssuePage.GetVersionSolutionAsWritten, IssuePage.ShortWindows10SolutionUndefined | IssuePage.GetVersionSolution, IssuePage.VersionSolutionAgrees |
