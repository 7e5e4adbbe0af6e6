/** `checks.Permission`: the applications the user has granted a
    capability (webcam, microphone, location, ...) to, read from the
    capability consent store in the registry. The registry is the in-memory
    key tree of the `Registry` module; `registrymock.OpenRegistryKey` is not
    part of this model and is taken to be that key's `OpenKey`. */
module Permission {
  import opened Wrappers
  import opened Strings
  import opened Checks
  import opened Registry
  import Utils

  const NonPackaged: string := "NonPackaged"

  const ConsentStore: string := "Software\\Microsoft\\Windows\\CurrentVersion\\CapabilityAccessManager\\ConsentStore\\"

  /** `appKeyName`: the key of an application is named after it, the
      non-packaged entry included. */
  function AppKeyName(appName: string): (r: string)
    ensures r == appName
  {
    if appName == NonPackaged then NonPackaged else appName
  }

  /** `nonPackagedAppNames`: for every subkey (named `path#executable`),
      the text after its last "#". */
  function NonPackagedAppNames(appKey: RegKey): (r: seq<string>)
    ensures |r| == |appKey.subKeys|
    ensures forall i :: 0 <= i < |r| ==>
      var name := appKey.subKeys[i].keyName;
      r[i] == AfterLast(name, "#") && !Contains(r[i], "#") && r[i] == name[|name| - |r[i]|..]
  {
    var names := SubKeyNames(appKey);
    seq(|names|, i requires 0 <= i < |names| => AfterLast(names[i], "#"))
  }

  /** The key the check opens for application `appName`: the first subkey
      of the permission key with that name. */
  function AppKey(key: RegKey, i: nat): (appKey: RegKey)
    requires i < |key.subKeys|
    ensures appKey.keyName == key.subKeys[i].keyName
  {
    var found := FindSubKey(key, AppKeyName(key.subKeys[i].keyName));
    assert FirstNamed(key, key.subKeys[i].keyName, i) || found.Some?;
    key.subKeys[found.value]
  }

  /** The "Value" that decides for application `i`: the permission key's
      own for the non-packaged entry, the application key's otherwise. */
  function AppValue(key: RegKey, i: nat): string
    requires i < |key.subKeys|
  {
    var appName := key.subKeys[i].keyName;
    if appName == NonPackaged then GetStringValue(key, "Value").val
    else GetStringValue(AppKey(key, i), "Value").val
  }

  /** What application `i` adds to the list: nothing unless its value is
      "Allow"; then the executables below the non-packaged entry, or a
      packaged application's name up to its first "_". */
  function Contribution(key: RegKey, i: nat): (r: seq<string>)
    requires i < |key.subKeys|
    ensures AppValue(key, i) != "Allow" ==> r == []
    ensures var appName := key.subKeys[i].keyName;
      AppValue(key, i) == "Allow" && appName != NonPackaged ==>
        r == [BeforeFirst(appName, "_")] && r[0] <= appName && !Contains(r[0], "_")
    ensures var appName := key.subKeys[i].keyName;
      AppValue(key, i) == "Allow" && appName == NonPackaged ==>
        r == NonPackagedAppNames(AppKey(key, i))
  {
    var appName := key.subKeys[i].keyName;
    if AppValue(key, i) != "Allow" then []
    else if appName == NonPackaged then NonPackagedAppNames(AppKey(key, i))
    else [BeforeFirst(appName, "_")]
  }

  /** Reference definition: the contributions of the first `n`
      applications, in order. */
  function Granted(key: RegKey, n: nat): seq<string>
    requires n <= |key.subKeys|
  {
    Concat(Contributions(key)[..n])
  }

  /** A name is granted exactly when some application contributes it. */
  lemma GrantedMembers(key: RegKey, n: nat)
    requires n <= |key.subKeys|
    ensures forall x :: x in Granted(key, n) <==> exists i :: 0 <= i < n && x in Contribution(key, i)
  {
    var cs := Contributions(key)[..n];
    ConcatMembers(cs);
    forall x
      ensures x in Granted(key, n) <==> exists i :: 0 <= i < n && x in Contribution(key, i)
    {
      if exists i :: 0 <= i < |cs| && x in cs[i] {
        var i :| 0 <= i < |cs| && x in cs[i];
        assert cs[i] == Contribution(key, i);
      }
      if exists i :: 0 <= i < n && x in Contribution(key, i) {
        var i :| 0 <= i < n && x in Contribution(key, i);
        assert cs[i] == Contribution(key, i);
      }
    }
  }

  /** Every application's contribution, in subkey order. */
  function Contributions(key: RegKey): (cs: seq<seq<string>>)
    ensures |cs| == |key.subKeys|
    ensures forall i :: 0 <= i < |cs| ==> cs[i] == Contribution(key, i)
  {
    seq(|key.subKeys|, i requires 0 <= i < |key.subKeys| => Contribution(key, i))
  }

  /** The lists of `parts` one after the other. */
  function Concat(parts: seq<seq<string>>): seq<string>
    decreases |parts|
  {
    if |parts| == 0 then [] else Concat(parts[..|parts| - 1]) + parts[|parts| - 1]
  }

  /** One more part appends its entries. */
  lemma ConcatSnoc(parts: seq<seq<string>>, i: nat)
    requires i < |parts|
    ensures Concat(parts[..i + 1]) == Concat(parts[..i]) + parts[i]
  {
    assert parts[..i + 1][..i] == parts[..i];
  }

  /** An entry of the concatenation comes from one of the parts. */
  lemma {:induction false} ConcatMembers(parts: seq<seq<string>>)
    ensures forall x :: x in Concat(parts) <==> exists i :: 0 <= i < |parts| && x in parts[i]
    decreases |parts|
  {
    if |parts| > 0 {
      var front := parts[..|parts| - 1];
      var last := parts[|parts| - 1];
      ConcatMembers(front);
      assert Concat(parts) == Concat(front) + last;
      forall x
        ensures x in Concat(front) + last <==> exists i :: 0 <= i < |parts| && x in parts[i]
      {
        if x in Concat(front) {
          var i :| 0 <= i < |front| && x in front[i];
          assert parts[i] == front[i];
        }
        if exists i :: 0 <= i < |parts| && x in parts[i] {
          var i :| 0 <= i < |parts| && x in parts[i];
          if i < |front| {
            assert front[i] == parts[i];
          }
        }
      }
    }
  }

  /** The permission key of `permission` under `root`, if there is one. */
  function PermissionKey(root: RegKey, permission: string): Option<RegKey> {
    match FindSubKey(root, ConsentStore + permission)
    case None => None
    case Some(i) => Some(root.subKeys[i])
  }

  /** One pass of the loop of `Permission`: what application `i` adds. */
  method AppNames(key: RegKey, i: nat) returns (add: seq<string>)
    requires i < |key.subKeys|
    ensures add == Contribution(key, i)
  {
    var appName := key.subKeys[i].keyName;
    assert key.subKeys[i].keyName == AppKeyName(appName);
    var appKey, _ := OpenKey(key, AppKeyName(appName));
    assert appKey == AppKey(key, i);
    var val: string;
    if appName == NonPackaged {
      val := GetStringValue(key, "Value").val;
    } else {
      val := GetStringValue(appKey, "Value").val;
    }
    add := [];
    if val == "Allow" {
      if appName == NonPackaged {
        add := NonPackagedAppNames(appKey);
      } else {
        add := [BeforeFirst(appName, "_")];
      }
    }
  }

  /** The loop of `Permission` over the applications of `key`. */
  method GrantedNames(key: RegKey) returns (results: seq<string>)
    ensures results == Granted(key, |key.subKeys|)
  {
    var applicationNames, _ := ReadSubKeyNames(key, -1);
    ghost var cs := Contributions(key);
    results := [];
    var i := 0;
    while i < |applicationNames|
      invariant 0 <= i <= |applicationNames| == |key.subKeys|
      invariant results == Concat(cs[..i])
    {
      var add := AppNames(key, i);
      ConcatSnoc(cs, i);
      results := results + add;
      i := i + 1;
    }
    assert cs[..i] == cs[..|key.subKeys|];
  }

  /** `Permission`: an error check named after the permission when its key
      cannot be opened; otherwise the granted names, each once, in the
      order they were first found. The mock's reads never fail, so the
      other error returns cannot happen here. */
  method CheckPermission(permission: string, root: RegKey) returns (c: NamedCheck)
    ensures PermissionKey(root, permission).None? ==>
      c == NewNamedErrorf(permission, "error opening registry key", "key not found")
    ensures PermissionKey(root, permission).Some? ==>
      var key := PermissionKey(root, permission).value;
      && c.error.None? && c.name == permission
      && Utils.IsDedupOf(c.result, Granted(key, |key.subKeys|))
      && (forall x :: x in c.result <==> exists i :: 0 <= i < |key.subKeys| && x in Contribution(key, i))
  {
    var key, err := OpenKey(root, ConsentStore + permission);
    if err.Some? {
      return NewNamedErrorf(permission, "error opening registry key", err.value);
    }
    var results := GrantedNames(key);
    GrantedMembers(key, |key.subKeys|);
    var filtered := Utils.RemoveDuplicateStr(results);
    c := NewNamedResult(permission, filtered);
  }
}
