/** `utils.RemoveDuplicateStr`: keep the first occurrence of every string,
    in input order. */
module Utils {

  predicate NoDups(s: seq<string>) {
    forall i, j :: 0 <= i < j < |s| ==> s[i] != s[j]
  }

  /** Position of the first occurrence of `x` in `s`. */
  function FirstIndex(s: seq<string>, x: string): (k: nat)
    requires x in s
    ensures k < |s| && s[k] == x
    ensures forall j :: 0 <= j < k ==> s[j] != x
  {
    if s[0] == x then 0 else FirstIndex(s[1..], x) + 1
  }

  /** Reference definition: the duplicates of `s` dropped, built from the
      left so that every element sits where it first occurred. */
  function Dedup(s: seq<string>): seq<string>
    decreases |s|
  {
    if |s| == 0 then []
    else
      var d := Dedup(s[..|s| - 1]);
      if s[|s| - 1] in d then d else d + [s[|s| - 1]]
  }

  /** Whether the result of deduplicating `s` is `r`: the same elements,
      each once, ordered by first occurrence in `s`. */
  predicate IsDedupOf(r: seq<string>, s: seq<string>) {
    && NoDups(r)
    && (forall x :: x in r ==> x in s) && (forall x :: x in s ==> x in r)
    && (forall i, j :: 0 <= i < j < |r| ==> FirstIndex(s, r[i]) < FirstIndex(s, r[j]))
  }

  lemma FirstIndexOfPrefix(s: seq<string>, m: nat, x: string)
    requires m <= |s| && x in s[..m]
    ensures FirstIndex(s, x) == FirstIndex(s[..m], x) < m
  {
    var k := FirstIndex(s[..m], x);
    var k' := FirstIndex(s, x);
    assert s[..m][k] == s[k];
    assert k' <= k;
    assert s[..m][k'] == s[k'];
  }

  /** `Dedup` meets its description. */
  lemma {:induction false} DedupCorrect(s: seq<string>)
    ensures IsDedupOf(Dedup(s), s)
    decreases |s|
  {
    if |s| > 0 {
      var p := s[..|s| - 1];
      var x := s[|s| - 1];
      var d := Dedup(p);
      DedupCorrect(p);
      assert s == p + [x];
      forall y | y in d
        ensures FirstIndex(s, y) == FirstIndex(p, y) < |p|
      {
        FirstIndexOfPrefix(s, |p|, y);
      }
      if x !in d {
        assert x !in p;
        assert FirstIndex(s, x) == |p|;
        var r := d + [x];
        forall i, j | 0 <= i < j < |r|
          ensures FirstIndex(s, r[i]) < FirstIndex(s, r[j])
        {
          assert r[i] in d;
          if j < |d| {
            assert r[j] in d;
          }
        }
      }
    }
  }

  /** Duplicate-free, drawn from `s` and ordered by first occurrence in `s`. */
  predicate OrderedFrom(t: seq<string>, s: seq<string>) {
    && NoDups(t)
    && (forall x :: x in t ==> x in s)
    && (forall i, j :: 0 <= i < j < |t| ==> FirstIndex(s, t[i]) < FirstIndex(s, t[j]))
  }

  predicate SameMembers(t1: seq<string>, t2: seq<string>) {
    (forall x :: x in t1 ==> x in t2) && (forall x :: x in t2 ==> x in t1)
  }

  /** Two results meeting the description coincide, so the description
      pins down the result. */
  lemma DedupUnique(r1: seq<string>, r2: seq<string>, s: seq<string>)
    requires IsDedupOf(r1, s) && IsDedupOf(r2, s)
    ensures r1 == r2
  {
    SameOrderedMembers(r1, r2, s);
  }

  lemma OrderedTail(t: seq<string>, s: seq<string>)
    requires |t| > 0 && OrderedFrom(t, s)
    ensures OrderedFrom(t[1..], s)
  {
    var u := t[1..];
    forall i, j | 0 <= i < j < |u|
      ensures FirstIndex(s, u[i]) < FirstIndex(s, u[j])
    {
      assert u[i] == t[i + 1] && u[j] == t[j + 1];
    }
  }

  /** The head of an ordered sequence is its member occurring first in `s`. */
  lemma HeadFirst(t: seq<string>, s: seq<string>)
    requires |t| > 0 && OrderedFrom(t, s)
    ensures forall x :: x in t ==> FirstIndex(s, t[0]) <= FirstIndex(s, x)
  {
    forall x | x in t
      ensures FirstIndex(s, t[0]) <= FirstIndex(s, x)
    {
      var k :| 0 <= k < |t| && t[k] == x;
      if k > 0 {
        assert FirstIndex(s, t[0]) < FirstIndex(s, t[k]);
      }
    }
  }

  lemma SameHead(t1: seq<string>, t2: seq<string>, s: seq<string>)
    requires |t1| > 0 && |t2| > 0
    requires OrderedFrom(t1, s) && OrderedFrom(t2, s) && SameMembers(t1, t2)
    ensures t1[0] == t2[0]
  {
    HeadFirst(t1, s);
    HeadFirst(t2, s);
    assert t2[0] in t1 && t1[0] in t2;
    assert FirstIndex(s, t1[0]) == FirstIndex(s, t2[0]);
  }

  lemma SameTailMembers(t1: seq<string>, t2: seq<string>)
    requires |t1| > 0 && |t2| > 0 && t1[0] == t2[0]
    requires NoDups(t1) && NoDups(t2) && SameMembers(t1, t2)
    ensures SameMembers(t1[1..], t2[1..])
  {
    var u1 := t1[1..];
    var u2 := t2[1..];
    forall x | x in u1
      ensures x in u2
    {
      var i :| 0 <= i < |u1| && u1[i] == x;
      assert t1[i + 1] == x;
      assert x in t2;
      var j :| 0 <= j < |t2| && t2[j] == x;
      assert t1[i + 1] != t1[0];
      assert u2[j - 1] == x;
    }
    forall x | x in u2
      ensures x in u1
    {
      var j :| 0 <= j < |u2| && u2[j] == x;
      assert t2[j + 1] == x;
      assert x in t1;
      var i :| 0 <= i < |t1| && t1[i] == x;
      assert t2[j + 1] != t2[0];
      assert u1[i - 1] == x;
    }
  }

  /** Two sequences over the same members, both `OrderedFrom(_, s)`, are equal. */
  lemma {:induction false} SameOrderedMembers(t1: seq<string>, t2: seq<string>, s: seq<string>)
    requires OrderedFrom(t1, s) && OrderedFrom(t2, s) && SameMembers(t1, t2)
    ensures t1 == t2
    decreases |t1|
  {
    assert |t1| > 0 ==> t1[0] in t1;
    assert |t2| > 0 ==> t2[0] in t2;
    if |t1| > 0 && |t2| > 0 {
      SameHead(t1, t2, s);
      SameTailMembers(t1, t2);
      OrderedTail(t1, s);
      OrderedTail(t2, s);
      SameOrderedMembers(t1[1..], t2[1..], s);
      assert t1 == [t1[0]] + t1[1..] && t2 == [t2[0]] + t2[1..];
    }
  }

  /** Deduplicating a duplicate-free sequence changes nothing. */
  lemma {:induction false} DedupOfNoDups(s: seq<string>)
    requires NoDups(s)
    ensures Dedup(s) == s
  {
    DedupCorrect(s);
    forall i, j | 0 <= i < j < |s|
      ensures FirstIndex(s, s[i]) < FirstIndex(s, s[j])
    {
    }
    DedupUnique(Dedup(s), s, s);
  }

  /** Deduplicating twice is deduplicating once. */
  lemma DedupIdempotent(s: seq<string>)
    ensures Dedup(Dedup(s)) == Dedup(s)
  {
    DedupCorrect(s);
    DedupOfNoDups(Dedup(s));
  }

  /** The Go loop: a set of strings already seen and the list built so far. */
  method RemoveDuplicateStr(strSlice: seq<string>) returns (list: seq<string>)
    ensures list == Dedup(strSlice)
    ensures IsDedupOf(list, strSlice)
    ensures |list| <= |strSlice|
  {
    var allKeys: map<string, bool> := map[];
    list := [];
    var i := 0;
    while i < |strSlice|
      invariant 0 <= i <= |strSlice|
      invariant list == Dedup(strSlice[..i])
      invariant |list| <= i
      invariant forall x :: x in allKeys <==> x in list
    {
      var item := strSlice[i];
      assert strSlice[..i + 1][..i] == strSlice[..i];
      if item !in allKeys {
        allKeys := allKeys[item := true];
        list := list + [item];
      }
      i := i + 1;
    }
    assert strSlice[..i] == strSlice;
    DedupCorrect(strSlice);
  }
}
