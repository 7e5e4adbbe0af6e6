/** The Firefox extension check, in its current form (issue ids given by
    the caller, ad-block result 0 or 1) and in its older form (issues 27
    and 28, ad-block result counting the ad blockers). Finding the profile
    folder, opening `extensions.json` and decoding it are not modelled:
    their outcomes are inputs. */
module Firefox {
  import opened Wrappers
  import opened Strings
  import opened Checks

  /** One decoded entry of `extensions.json`. */
  datatype Addon = Addon(name: string, kind: string, creator: string, active: bool)

  /** The outcome of opening and decoding the extensions file at a path. */
  datatype Extensions =
    | OpenFailed(openErr: string)
    | DecodeFailed(decodeErr: string)
    | Decoded(addons: seq<Addon>)

  /** The known ad blockers, lower case. */
  const AdblockerNames: seq<string> := [
    "adblocker ultimate",
    "adguard adblocker",
    "adblocker for youtube",
    "ublock origin",
    "adblock plus",
    "adblock for firefox"
  ]

  /** The lower-cased name mentions a known ad blocker. */
  predicate IsAdblocker(extensionName: string) {
    exists i :: 0 <= i < |AdblockerNames| && Contains(ToLower(extensionName), AdblockerNames[i])
  }

  /** `AdblockerFirefox` (and the older `adblockerFirefox`): the known
      names tried in turn. */
  method AdblockerFirefox(extensionName: string) returns (found: bool)
    ensures found <==> IsAdblocker(extensionName)
  {
    var lower := ToLower(extensionName);
    var i := 0;
    while i < |AdblockerNames|
      invariant 0 <= i <= |AdblockerNames|
      invariant forall j :: 0 <= j < i ==> !Contains(lower, AdblockerNames[j])
    {
      if Contains(lower, AdblockerNames[i]) {
        return true;
      }
      i := i + 1;
    }
    return false;
  }

  lemma ToLowerIdempotent(s: string)
    ensures ToLower(ToLower(s)) == ToLower(s)
  {
  }

  /** Matching ignores case: a name and its lower-case form agree. */
  lemma AdblockerIgnoresCase(extensionName: string)
    ensures IsAdblocker(ToLower(extensionName)) <==> IsAdblocker(extensionName)
  {
    ToLowerIdempotent(extensionName);
  }

  /** A name that contains one of the known names, in any case, is an ad
      blocker; for instance "uBlock Origin". */
  lemma UBlockOriginIsAdblocker()
    ensures IsAdblocker("uBlock Origin")
  {
    assert ToLower("uBlock Origin") == "ublock origin";
    assert "ublock origin" <= ToLower("uBlock Origin")[0..];
    assert Contains(ToLower("uBlock Origin"), AdblockerNames[3]);
  }

  /** `strconv.FormatBool`. */
  function FormatBool(b: bool): string {
    if b then "true" else "false"
  }

  /** The line listed for one addon: name, type, creator and whether it is
      active, separated by commas. */
  function AddonLine(a: Addon): string {
    a.name + "," + a.kind + "," + a.creator + "," + FormatBool(a.active)
  }

  function AddonLines(addons: seq<Addon>): (lines: seq<string>)
    ensures |lines| == |addons|
    ensures forall i :: 0 <= i < |addons| ==> lines[i] == AddonLine(addons[i])
  {
    seq(|addons|, i requires 0 <= i < |addons| => AddonLine(addons[i]))
  }

  /** Reference definition: how many addons are ad blockers. */
  function AdblockerCount(addons: seq<Addon>): (n: nat)
    ensures n <= |addons|
    decreases |addons|
  {
    if |addons| == 0 then 0
    else AdblockerCount(addons[..|addons| - 1]) + (if IsAdblocker(addons[|addons| - 1].name) then 1 else 0)
  }

  predicate AnyAdblocker(addons: seq<Addon>) {
    exists i :: 0 <= i < |addons| && IsAdblocker(addons[i].name)
  }

  /** Some addon is an ad blocker exactly when the count is positive. */
  lemma {:induction false} CountPositive(addons: seq<Addon>)
    ensures AdblockerCount(addons) > 0 <==> AnyAdblocker(addons)
    decreases |addons|
  {
    if |addons| > 0 {
      var p := addons[..|addons| - 1];
      CountPositive(p);
      if AnyAdblocker(p) {
        var i :| 0 <= i < |p| && IsAdblocker(p[i].name);
        assert addons[i] == p[i];
      }
      if AnyAdblocker(addons) {
        var i :| 0 <= i < |addons| && IsAdblocker(addons[i].name);
        if i < |p| {
          assert p[i] == addons[i];
        }
      }
    }
  }

  lemma AddonLinesSnoc(addons: seq<Addon>, i: nat)
    requires i < |addons|
    ensures AddonLines(addons[..i + 1]) == AddonLines(addons[..i]) + [AddonLine(addons[i])]
  {
  }

  lemma CountSnoc(addons: seq<Addon>, i: nat)
    requires i < |addons|
    ensures AdblockerCount(addons[..i + 1]) == AdblockerCount(addons[..i]) + (if IsAdblocker(addons[i].name) then 1 else 0)
  {
    assert addons[..i + 1][..i] == addons[..i];
  }

  /** The addon loop shared by both forms: the listed lines, whether an ad
      blocker was seen, and how many. */
  method ScanAddons(addons: seq<Addon>) returns (output: seq<string>, any: bool, count: nat)
    ensures output == AddonLines(addons)
    ensures any <==> AnyAdblocker(addons)
    ensures count == AdblockerCount(addons)
  {
    output := [];
    any := false;
    count := 0;
    var i := 0;
    while i < |addons|
      invariant 0 <= i <= |addons|
      invariant output == AddonLines(addons[..i])
      invariant count == AdblockerCount(addons[..i])
      invariant any <==> count > 0
    {
      var addon := addons[i];
      AddonLinesSnoc(addons, i);
      CountSnoc(addons, i);
      output := output + [AddonLine(addon)];
      var isBlocker := AdblockerFirefox(addon.name);
      if isBlocker {
        any := true;
        count := count + 1;
      }
      i := i + 1;
    }
    assert addons[..i] == addons;
    CountPositive(addons);
  }

  const NoFirefoxDirectory: string := "No firefox directory found"

  /** The extensions file of the first profile folder. */
  function ExtensionsPath(folder: string): string {
    folder + "\\extensions.json"
  }

  /** `ExtensionFirefox`: the extension list (result 0, one line per addon
      in order) and the ad-block check (result 0 when some addon is an ad
      blocker, 1 otherwise). Every failure makes both checks errors. The
      source indexes the first profile folder without a length check, so a
      successful folder lookup must find at least one. */
  method ExtensionFirefox(extensionId: int, adblockId: int, folders: Result<seq<string>>,
                          read: string -> Extensions)
    returns (extensions: Check, adblock: Check)
    requires folders.Ok? ==> |folders.value| > 0
    ensures folders.Err? ==>
      extensions == NewCheckErrorf(extensionId, NoFirefoxDirectory, folders.error) &&
      adblock == NewCheckErrorf(adblockId, NoFirefoxDirectory, folders.error)
    ensures folders.Ok? ==>
      match read(ExtensionsPath(folders.value[0]))
      case OpenFailed(e) => extensions == NewCheckError(extensionId, e) && adblock == NewCheckError(adblockId, e)
      case DecodeFailed(e) => extensions == NewCheckError(extensionId, e) && adblock == NewCheckError(adblockId, e)
      case Decoded(addons) =>
        && extensions == NewCheckResult(extensionId, 0, AddonLines(addons))
        && adblock == NewCheckResult(adblockId, if AnyAdblocker(addons) then 0 else 1, [])
  {
    if folders.Err? {
      return NewCheckErrorf(extensionId, NoFirefoxDirectory, folders.error),
        NewCheckErrorf(adblockId, NoFirefoxDirectory, folders.error);
    }
    var content := read(ExtensionsPath(folders.value[0]));
    if content.OpenFailed? {
      return NewCheckError(extensionId, content.openErr), NewCheckError(adblockId, content.openErr);
    }
    if content.DecodeFailed? {
      return NewCheckError(extensionId, content.decodeErr), NewCheckError(adblockId, content.decodeErr);
    }
    var output, any, _ := ScanAddons(content.addons);
    var resultId := if any then 0 else 1;
    extensions := NewCheckResult(extensionId, 0, output);
    adblock := NewCheckResult(adblockId, resultId, []);
  }

  /** Issue ids of the older form. */
  const ExtensionIssue: int := 27
  const AdblockIssue: int := 28

  /** The older `ExtensionFirefox`: issues 27 and 28; the ad-block result
      id is the number of ad blockers found and its one line says whether
      there was any. */
  method LegacyExtensionFirefox(folders: Result<seq<string>>, read: string -> Extensions)
    returns (extensions: Check, adblock: Check)
    requires folders.Ok? ==> |folders.value| > 0
    ensures folders.Err? ==>
      extensions == NewCheckErrorf(ExtensionIssue, NoFirefoxDirectory, folders.error) &&
      adblock == NewCheckErrorf(AdblockIssue, NoFirefoxDirectory, folders.error)
    ensures folders.Ok? ==>
      match read(ExtensionsPath(folders.value[0]))
      case OpenFailed(e) => extensions == NewCheckError(ExtensionIssue, e) && adblock == NewCheckError(AdblockIssue, e)
      case DecodeFailed(e) => extensions == NewCheckError(ExtensionIssue, e) && adblock == NewCheckError(AdblockIssue, e)
      case Decoded(addons) =>
        && extensions == NewCheckResult(ExtensionIssue, 0, AddonLines(addons))
        && adblock.resultId == AdblockerCount(addons)
        && adblock == NewCheckResult(AdblockIssue, adblock.resultId, [FormatBool(adblock.resultId > 0)])
  {
    if folders.Err? {
      return NewCheckErrorf(ExtensionIssue, NoFirefoxDirectory, folders.error),
        NewCheckErrorf(AdblockIssue, NoFirefoxDirectory, folders.error);
    }
    var content := read(ExtensionsPath(folders.value[0]));
    if content.OpenFailed? {
      return NewCheckError(ExtensionIssue, content.openErr), NewCheckError(AdblockIssue, content.openErr);
    }
    if content.DecodeFailed? {
      return NewCheckError(ExtensionIssue, content.decodeErr), NewCheckError(AdblockIssue, content.decodeErr);
    }
    var output, addBlocker, resultId := ScanAddons(content.addons);
    CountPositive(content.addons);
    extensions := NewCheckResult(ExtensionIssue, 0, output);
    adblock := NewCheckResult(AdblockIssue, resultId, [FormatBool(addBlocker)]);
  }
}
