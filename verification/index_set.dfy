/** `IndexSet` (insertion-ordered set with stable positions) as a duplicate-free
    sequence; `insert_full` returns the position of the value, appending it when
    it is new. */
module IndexSets {

  ghost predicate NoDup<T>(s: seq<T>) {
    forall i, j :: 0 <= i < j < |s| ==> s[i] != s[j]
  }

  function IndexOf<T(==)>(s: seq<T>, v: T): (i: nat)
    requires v in s
    ensures i < |s| && s[i] == v
    ensures forall j :: 0 <= j < i ==> s[j] != v
  {
    if s[0] == v then 0 else 1 + IndexOf(s[1..], v)
  }

  /** `insert_full`: the new set and the index of `v` in it. */
  function InsertFull<T(==)>(s: seq<T>, v: T): (r: (seq<T>, nat))
    requires NoDup(s)
    ensures NoDup(r.0)
    ensures r.1 < |r.0| && r.0[r.1] == v
    ensures v in s ==> r.0 == s
    ensures v !in s ==> r.0 == s + [v]
  {
    if v in s then (s, IndexOf(s, v)) else (s + [v], |s|)
  }

  /** Inserting `vs` one after the other, collecting each returned index. */
  function InsertAll<T(==)>(s: seq<T>, vs: seq<T>): (r: (seq<T>, seq<nat>))
    requires NoDup(s)
    ensures NoDup(r.0)
    ensures |s| <= |r.0| && r.0[..|s|] == s
    ensures |r.1| == |vs|
    ensures forall j :: 0 <= j < |vs| ==> r.1[j] < |r.0| && r.0[r.1[j]] == vs[j]
    ensures (set x | x in r.0) == (set x | x in s) + (set x | x in vs)
    decreases |vs|
  {
    if vs == [] then (s, [])
    else
      var (s1, i) := InsertFull(s, vs[0]);
      var (s2, rest) := InsertAll(s1, vs[1..]);
      InsertAllStep(s, vs, s1, i, s2, rest);
      (s2, [i] + rest)
  }

  /** The first insertion followed by the rest is the insertion of all. */
  lemma InsertAllStep<T>(s: seq<T>, vs: seq<T>, s1: seq<T>, i: nat, s2: seq<T>, rest: seq<nat>)
    requires vs != [] && i < |s1| && s1[i] == vs[0]
    requires vs[0] in s ==> s1 == s
    requires vs[0] !in s ==> s1 == s + [vs[0]]
    requires |s1| <= |s2| && s2[..|s1|] == s1 && |rest| == |vs| - 1
    requires forall j :: 0 <= j < |vs| - 1 ==> rest[j] < |s2| && s2[rest[j]] == vs[1..][j]
    requires (set x | x in s2) == (set x | x in s1) + (set x | x in vs[1..])
    ensures |s| <= |s2| && s2[..|s|] == s
    ensures |[i] + rest| == |vs|
    ensures forall j :: 0 <= j < |vs| ==> ([i] + rest)[j] < |s2| && s2[([i] + rest)[j]] == vs[j]
    ensures (set x | x in s2) == (set x | x in s) + (set x | x in vs)
  {
    assert s2[..|s|] == s1[..|s|];
    assert s2[i] == s2[..|s1|][i];
    assert forall j :: 1 <= j < |vs| ==> vs[j] == vs[1..][j - 1];
    assert (set x | x in s1) == (set x | x in s) + {vs[0]};
    assert (set x | x in vs) == {vs[0]} + (set x | x in vs[1..]) by {
      assert vs == [vs[0]] + vs[1..];
    }
  }

  /** Every position the insertions added is the index one of them returned. */
  lemma InsertAllCovers<T>(s: seq<T>, vs: seq<T>, k: nat)
    requires NoDup(s) && |s| <= k < |InsertAll(s, vs).0|
    ensures exists j :: 0 <= j < |vs| && InsertAll(s, vs).1[j] == k
  {
    var (s', idx) := InsertAll(s, vs);
    var v := s'[k];
    assert v in (set x | x in s');
    assert forall k' :: 0 <= k' < |s| ==> s[k'] == s'[..|s|][k'] == s'[k'];
    assert v in (set x | x in s) + (set x | x in vs);
    assert v !in (set x | x in s);
    assert v in vs;
    var j :| 0 <= j < |vs| && vs[j] == v;
    assert s'[idx[j]] == s'[k];
  }
}
