/** `MockRegistryKey`, the in-memory registry key the checks are tested
    against: a named key with string, binary and integer values and an
    ordered list of subkeys. Every operation is a pure function of the key;
    none of them ever fails except `OpenKey`. */
module Registry {
  import opened Wrappers
  import Utils

  type byte = bv8

  /** `registry.KeyInfo`, as `Stat` hands it back. */
  datatype KeyInfo = KeyInfo(
    subKeyCount: nat,
    maxSubKeyLen: nat,
    valueCount: nat,
    maxValueNameLen: nat,
    maxValueLen: nat,
    lastWriteTime: int)

  datatype RegKey = RegKey(
    keyName: string,
    stringValues: map<string, string>,
    binaryValues: map<string, seq<byte>>,
    integerValues: map<string, int>,
    subKeys: seq<RegKey>,
    statReturn: Option<KeyInfo>,
    err: Option<string>)

  /** A value read from a key: the value, its type code and an error. */
  datatype Read<T> = Read(val: T, valType: int, err: Option<string>)

  /** `GetStringValue`: never fails; an absent name reads as "". */
  function GetStringValue(k: RegKey, name: string): (r: Read<string>)
    ensures r.err.None? && r.valType == 0
    ensures name in k.stringValues ==> r.val == k.stringValues[name]
    ensures name !in k.stringValues ==> r.val == ""
  {
    Read(if name in k.stringValues then k.stringValues[name] else "", 0, None)
  }

  /** `GetBinaryValue`: never fails; an absent name reads as no bytes. */
  function GetBinaryValue(k: RegKey, name: string): (r: Read<seq<byte>>)
    ensures r.err.None? && r.valType == 0
    ensures name in k.binaryValues ==> r.val == k.binaryValues[name]
    ensures name !in k.binaryValues ==> r.val == []
  {
    Read(if name in k.binaryValues then k.binaryValues[name] else [], 0, None)
  }

  /** `GetIntegerValue`: never fails; an absent name reads as 0. */
  function GetIntegerValue(k: RegKey, name: string): (r: Read<int>)
    ensures r.err.None? && r.valType == 0
    ensures name in k.integerValues ==> r.val == k.integerValues[name]
    ensures name !in k.integerValues ==> r.val == 0
  {
    Read(if name in k.integerValues then k.integerValues[name] else 0, 0, None)
  }

  /** Subkey `i` is the first one named `path`. */
  predicate FirstNamed(k: RegKey, path: string, i: int) {
    0 <= i < |k.subKeys| && k.subKeys[i].keyName == path
    && forall j :: 0 <= j < i ==> k.subKeys[j].keyName != path
  }

  predicate HasSubKey(k: RegKey, path: string) {
    exists i :: 0 <= i < |k.subKeys| && k.subKeys[i].keyName == path
  }

  /** Reference definition: the index of the first subkey named `path`,
      searching from `from` on. */
  function FindFrom(k: RegKey, path: string, from: nat): (r: Option<nat>)
    requires from <= |k.subKeys|
    requires forall j :: 0 <= j < from ==> k.subKeys[j].keyName != path
    ensures r.Some? ==> FirstNamed(k, path, r.value)
    ensures r.None? ==> !HasSubKey(k, path)
    decreases |k.subKeys| - from
  {
    if from == |k.subKeys| then None
    else if k.subKeys[from].keyName == path then Some(from)
    else FindFrom(k, path, from + 1)
  }

  function FindSubKey(k: RegKey, path: string): (r: Option<nat>)
    ensures r.Some? ==> FirstNamed(k, path, r.value)
    ensures r.None? ==> !HasSubKey(k, path)
  {
    FindFrom(k, path, 0)
  }

  /** Only one subkey is the first with a given name. */
  lemma FirstNamedUnique(k: RegKey, path: string, i: int, j: int)
    requires FirstNamed(k, path, i) && FirstNamed(k, path, j)
    ensures i == j
  {
  }

  /** `OpenKey`: the first subkey whose name is `path`; when there is none,
      the key itself together with "key not found". The path is compared
      whole: it is not split at backslashes. */
  method OpenKey(k: RegKey, path: string) returns (key: RegKey, err: Option<string>)
    ensures err.None? <==> HasSubKey(k, path)
    ensures err.None? ==> exists i :: FirstNamed(k, path, i) && key == k.subKeys[i]
    ensures err.None? ==> key == k.subKeys[FindSubKey(k, path).value]
    ensures err.Some? ==> key == k && err == Some("key not found")
  {
    var i := 0;
    while i < |k.subKeys|
      invariant 0 <= i <= |k.subKeys|
      invariant forall j :: 0 <= j < i ==> k.subKeys[j].keyName != path
    {
      if k.subKeys[i].keyName == path {
        assert FirstNamed(k, path, i);
        FirstNamedUnique(k, path, i, FindSubKey(k, path).value);
        return k.subKeys[i], None;
      }
      i := i + 1;
    }
    return k, Some("key not found");
  }

  /** The names of all subkeys, in order. */
  function SubKeyNames(k: RegKey): (names: seq<string>)
    ensures |names| == |k.subKeys|
    ensures forall i :: 0 <= i < |names| ==> names[i] == k.subKeys[i].keyName
  {
    seq(|k.subKeys|, i requires 0 <= i < |k.subKeys| => k.subKeys[i].keyName)
  }

  /** `ReadSubKeyNames`: the names of the first `count` subkeys in order;
      a negative count, or one beyond the number of subkeys, gives all of
      them, and 0 gives none. It never fails. */
  method ReadSubKeyNames(k: RegKey, count: int) returns (names: seq<string>, err: Option<string>)
    ensures err.None?
    ensures count < 0 || count >= |k.subKeys| ==> names == SubKeyNames(k)
    ensures 0 <= count < |k.subKeys| ==> names == SubKeyNames(k)[..count]
    ensures |names| <= |k.subKeys|
  {
    names := [];
    var maxCount := 0;
    var i := 0;
    while i < |k.subKeys|
      invariant 0 <= i <= |k.subKeys|
      invariant maxCount == i
      invariant count < 0 || i <= count
      invariant names == SubKeyNames(k)[..i]
    {
      if maxCount == count {
        break;
      }
      names := names + [k.subKeys[i].keyName];
      maxCount := maxCount + 1;
      i := i + 1;
    }
    assert i == |k.subKeys| ==> SubKeyNames(k)[..i] == SubKeyNames(k);
    err := None;
  }

  /** `xs` lists the keys of a map: each once, and nothing else. */
  predicate Enumerates<V>(xs: seq<string>, m: map<string, V>) {
    Utils.NoDups(xs) && (forall x :: x in xs ==> x in m) && (forall x :: x in m ==> x in xs)
  }

  /** All value names of a key, whatever their kind. */
  function ValueNameSet(k: RegKey): set<string> {
    k.stringValues.Keys + k.binaryValues.Keys + k.integerValues.Keys
  }

  /** `ReadValueNames`: the names of the string values, then the binary
      values, then the integer values, each name kept at its first
      occurrence; all of them when `maxCount` is not positive or not below
      their number, the first `maxCount` otherwise. Go visits each map in an
      unspecified order: `strOrder`, `binOrder` and `intOrder` are the
      orders this call visits them in. */
  method ReadValueNames(k: RegKey, maxCount: int, strOrder: seq<string>, binOrder: seq<string>, intOrder: seq<string>)
    returns (names: seq<string>, err: Option<string>)
    requires Enumerates(strOrder, k.stringValues)
    requires Enumerates(binOrder, k.binaryValues)
    requires Enumerates(intOrder, k.integerValues)
    ensures err.None? && Utils.NoDups(names)
    ensures forall x :: x in names ==> x in ValueNameSet(k)
    ensures maxCount <= 0 || maxCount >= |ValueNameSet(k)| ==> forall x :: x in ValueNameSet(k) ==> x in names
    ensures 0 < maxCount < |ValueNameSet(k)| ==> |names| == maxCount
    ensures names <= Utils.Dedup(strOrder + binOrder + intOrder)
  {
    var valueNames := strOrder + binOrder + intOrder;
    var unique := Utils.RemoveDuplicateStr(valueNames);
    ghost var all := ValueNameSet(k);
    ValueNamesOf(k, strOrder, binOrder, intOrder);
    assert forall x :: x in unique <==> x in all;
    UniqueCount(unique, all);
    if maxCount <= 0 || maxCount >= |unique| {
      names := unique;
    } else {
      names := unique[..maxCount];
      TakeOfUnique(unique, maxCount, all);
    }
    err := None;
  }

  /** The three orders together list exactly the key's value names. */
  lemma ValueNamesOf(k: RegKey, strOrder: seq<string>, binOrder: seq<string>, intOrder: seq<string>)
    requires Enumerates(strOrder, k.stringValues)
    requires Enumerates(binOrder, k.binaryValues)
    requires Enumerates(intOrder, k.integerValues)
    ensures forall x :: x in strOrder + binOrder + intOrder <==> x in ValueNameSet(k)
  {
  }

  /** A prefix of a duplicate-free list of members of `s` is one too. */
  lemma TakeOfUnique(xs: seq<string>, n: nat, s: set<string>)
    requires n <= |xs| && Utils.NoDups(xs) && forall x :: x in xs ==> x in s
    ensures Utils.NoDups(xs[..n]) && forall x :: x in xs[..n] ==> x in s
  {
    assert forall j :: 0 <= j < n ==> xs[..n][j] == xs[j];
  }

  /** A duplicate-free list of exactly the members of `s` has `|s|` entries. */
  lemma {:induction false} UniqueCount(xs: seq<string>, s: set<string>)
    requires Utils.NoDups(xs) && forall x :: x in xs <==> x in s
    ensures |xs| == |s|
    decreases |xs|
  {
    if |xs| > 0 {
      var t := xs[1..];
      assert forall x :: x in t ==> x in xs;
      forall j | 0 <= j < |t|
        ensures t[j] != xs[0]
      {
        assert t[j] == xs[j + 1];
      }
      forall x | x in t
        ensures x in s - {xs[0]}
      {
      }
      forall x | x in s - {xs[0]}
        ensures x in t
      {
        var j :| 0 <= j < |xs| && xs[j] == x;
        assert j != 0;
        assert t[j - 1] == x;
      }
      assert Utils.NoDups(t);
      UniqueCount(t, s - {xs[0]});
    } else {
      assert forall x :: x in s ==> x in xs;
      assert s == {};
    }
  }

  /** `Close`: always succeeds. */
  function Close(k: RegKey): (err: Option<string>)
    ensures err.None?
  {
    None
  }

  /** `Stat`: the key's configured `StatReturn`, and no error. */
  function Stat(k: RegKey): (r: (Option<KeyInfo>, Option<string>))
    ensures r.0 == k.statReturn && r.1.None?
  {
    (k.statReturn, None)
  }
}
