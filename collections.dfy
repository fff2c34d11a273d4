/**
 * Generic list operations the post pipeline is built from: filtering,
 * sorting under a comparator, JavaScript's `slice(0, end)`, and counting
 * occurrences into a dictionary whose keys remember insertion order.
 */
module Collections {

  /** No element occurs twice. */
  predicate Distinct<T(==)>(s: seq<T>) {
    forall i, j :: 0 <= i < j < |s| ==> s[i] != s[j]
  }

  /** `le(x, y)` says x may be placed before y; every pair is comparable and the relation is transitive. */
  ghost predicate TotalPreorder<T(!new)>(le: (T, T) -> bool) {
    && (forall x, y :: le(x, y) || le(y, x))
    && (forall x, y, z :: le(x, y) && le(y, z) ==> le(x, z))
  }

  /** Every element may be placed before every later one. */
  ghost predicate SortedBy<T>(s: seq<T>, le: (T, T) -> bool) {
    forall i, j :: 0 <= i < j < |s| ==> le(s[i], s[j])
  }

  /** The elements of `s` that satisfy `keep`, in their original order (JavaScript's `filter`). */
  function Filter<T(!new)>(s: seq<T>, keep: T -> bool): (r: seq<T>)
    ensures |r| <= |s|
    ensures forall x :: x in r <==> x in s && keep(x)
    ensures forall x :: multiset(r)[x] == if keep(x) then multiset(s)[x] else 0
  {
    if s == [] then []
    else
      assert s == [s[0]] + s[1..];
      if keep(s[0]) then [s[0]] + Filter(s[1..], keep) else Filter(s[1..], keep)
  }

  /** A filter that every element passes gives back the whole list. */
  lemma {:induction false} FilterKeepsAll<T(!new)>(s: seq<T>, keep: T -> bool)
    requires forall x :: x in s ==> keep(x)
    ensures Filter(s, keep) == s
  {
    if s != [] {
      FilterKeepsAll(s[1..], keep);
    }
  }

  /** Inserts `x` before the first element it may precede. */
  function Insert<T>(x: T, s: seq<T>, le: (T, T) -> bool): (r: seq<T>)
    ensures |r| == |s| + 1
    ensures multiset(r) == multiset(s) + multiset{x}
  {
    if s == [] then [x]
    else if le(x, s[0]) then [x] + s
    else
      assert s == [s[0]] + s[1..];
      [s[0]] + Insert(x, s[1..], le)
  }

  /**
   * A sort by comparator. JavaScript's `Array.prototype.sort` does not fix
   * its algorithm; this insertion sort stands for it, and only what every
   * correct sort guarantees (a permutation, in order) is stated about it.
   */
  function SortBy<T>(s: seq<T>, le: (T, T) -> bool): (r: seq<T>)
    ensures |r| == |s|
    ensures multiset(r) == multiset(s)
  {
    if s == [] then []
    else
      assert s == [s[0]] + s[1..];
      Insert(s[0], SortBy(s[1..], le), le)
  }

  lemma {:induction false} InsertSorted<T(!new)>(x: T, s: seq<T>, le: (T, T) -> bool)
    requires TotalPreorder(le)
    requires SortedBy(s, le)
    ensures SortedBy(Insert(x, s, le), le)
  {
    if s == [] {
    } else if le(x, s[0]) {
      var r := [x] + s;
      forall i, j | 0 <= i < j < |r| ensures le(r[i], r[j]) {
        if i == 0 && j > 1 {
          assert le(s[0], s[j - 1]);
        }
      }
    } else {
      var t := Insert(x, s[1..], le);
      InsertSorted(x, s[1..], le);
      assert SortedBy(s[1..], le) by {
        forall i, j | 0 <= i < j < |s[1..]| ensures le(s[1..][i], s[1..][j]) {
          assert s[1..][i] == s[i + 1] && s[1..][j] == s[j + 1];
        }
      }
      var r := [s[0]] + t;
      forall k | 0 <= k < |t| ensures le(s[0], t[k]) {
        assert t[k] in multiset(t);
        if t[k] != x {
          assert t[k] in multiset(s[1..]);
          var m :| 0 <= m < |s[1..]| && s[1..][m] == t[k];
          assert s[m + 1] == t[k];
        }
      }
      forall i, j | 0 <= i < j < |r| ensures le(r[i], r[j]) {
        if i == 0 {
          assert r[j] == t[j - 1];
        } else {
          assert r[i] == t[i - 1] && r[j] == t[j - 1];
        }
      }
    }
  }

  /** Under a total preorder the sort puts the list in order. */
  lemma {:induction false} SortBySorted<T(!new)>(s: seq<T>, le: (T, T) -> bool)
    requires TotalPreorder(le)
    ensures SortedBy(SortBy(s, le), le)
  {
    if s != [] {
      SortBySorted(s[1..], le);
      InsertSorted(s[0], SortBy(s[1..], le), le);
    }
  }

  /**
   * The end index that JavaScript's `slice(0, end)` uses on a list of
   * length n: a negative end counts back from the end of the list.
   */
  function SliceEnd(n: nat, end: int): (k: nat)
    ensures k <= n
  {
    if end < 0 then (if n + end < 0 then 0 else n + end)
    else if end < n then end
    else n
  }

  /** `s.slice(0, end)`. */
  function Take<T>(s: seq<T>, end: int): (r: seq<T>)
    ensures 0 <= end ==> |r| == if end < |s| then end else |s|
    ensures end < 0 ==> |r| == if |s| + end < 0 then 0 else |s| + end
    ensures forall i :: 0 <= i < |r| ==> r[i] == s[i]
    ensures multiset(r) <= multiset(s)
  {
    var k := SliceEnd(|s|, end);
    assert s == s[..k] + s[k..];
    s[..k]
  }

  /**
   * Taking a prefix of a sorted permutation of q selects a top group: every
   * element of q left out may be placed after every element taken.
   */
  lemma TakeOfSortedIsTop<T(!new)>(q: seq<T>, s: seq<T>, end: int, le: (T, T) -> bool)
    requires multiset(s) == multiset(q)
    requires SortedBy(s, le)
    ensures SortedBy(Take(s, end), le)
    ensures forall p, x :: p in q && p !in Take(s, end) && x in Take(s, end) ==> le(x, p)
  {
    var r := Take(s, end);
    forall p, x | p in q && p !in r && x in r ensures le(x, p) {
      assert p in multiset(s);
      var m :| 0 <= m < |s| && s[m] == p;
      var i :| 0 <= i < |r| && r[i] == x;
      assert m >= |r|;
    }
  }

  // ---------------------------------------------------------------------
  // Counting into a dictionary
  // ---------------------------------------------------------------------

  /** A prefix one longer is the prefix with the next element appended. */
  lemma PrefixStep<T>(s: seq<T>, j: nat)
    requires j < |s|
    ensures s[..j + 1] == s[..j] + [s[j]]
  {
  }

  /** The sum of the counts `m` holds for `keys`. */
  function SumOver(keys: seq<string>, m: map<string, nat>): nat
    requires forall k :: k in keys ==> k in m
  {
    if keys == [] then 0 else m[keys[0]] + SumOver(keys[1..], m)
  }

  lemma {:induction false} SumOverAppend(keys: seq<string>, k: string, m: map<string, nat>)
    requires forall j :: j in keys ==> j in m
    requires k in m
    ensures SumOver(keys + [k], m) == SumOver(keys, m) + m[k]
  {
    if keys != [] {
      assert (keys + [k])[1..] == keys[1..] + [k];
      SumOverAppend(keys[1..], k, m);
    }
  }

  lemma {:induction false} SumOverOtherKey(keys: seq<string>, m: map<string, nat>, k: string, v: nat)
    requires forall j :: j in keys ==> j in m
    requires k !in keys
    ensures SumOver(keys, m[k := v]) == SumOver(keys, m)
  {
    if keys != [] {
      SumOverOtherKey(keys[1..], m, k, v);
    }
  }

  lemma {:induction false} SumOverIncrement(keys: seq<string>, m: map<string, nat>, k: string)
    requires forall j :: j in keys ==> j in m
    requires Distinct(keys)
    requires k in keys
    ensures SumOver(keys, m[k := m[k] + 1]) == SumOver(keys, m) + 1
  {
    if keys[0] == k {
      assert k !in keys[1..];
      SumOverOtherKey(keys[1..], m, k, m[k] + 1);
    } else {
      SumOverIncrement(keys[1..], m, k);
    }
  }

  lemma {:induction false} SumOverRemove(keys: seq<string>, m: map<string, nat>, i: nat)
    requires forall j :: j in keys ==> j in m
    requires i < |keys|
    ensures SumOver(keys, m) == m[keys[i]] + SumOver(keys[..i] + keys[i + 1..], m)
  {
    if i > 0 {
      assert (keys[..i] + keys[i + 1..])[1..] == keys[1..][..i - 1] + keys[1..][i..];
      SumOverRemove(keys[1..], m, i - 1);
    } else {
      assert keys[..0] + keys[1..] == keys[1..];
    }
  }

  /** Reorderings have the same elements. */
  lemma PermutationMembers<T>(a: seq<T>, b: seq<T>)
    requires multiset(a) == multiset(b)
    ensures forall x :: x in a <==> x in b
  {
    forall x ensures x in a <==> x in b {
      assert x in a <==> x in multiset(a);
      assert x in b <==> x in multiset(b);
    }
  }

  /** The first element of a list occurs somewhere in a reordering of it, and the rests are reorderings. */
  lemma PermutationHead<T>(a: seq<T>, b: seq<T>) returns (i: nat)
    requires a != [] && multiset(a) == multiset(b)
    ensures i < |b| && b[i] == a[0]
    ensures multiset(a[1..]) == multiset(b[..i] + b[i + 1..])
  {
    assert a[0] in multiset(b);
    i :| 0 <= i < |b| && b[i] == a[0];
    var rest := b[..i] + b[i + 1..];
    assert b == b[..i] + [b[i]] + b[i + 1..];
    assert a == [a[0]] + a[1..];
    assert multiset(b) == multiset{b[i]} + multiset(rest);
    assert multiset(a) == multiset{a[0]} + multiset(a[1..]);
    forall x ensures multiset(a[1..])[x] == multiset(rest)[x] {
      assert (multiset{a[0]} + multiset(a[1..]))[x] == (multiset{a[0]} + multiset(rest))[x];
    }
  }

  /** Taking a's first element out of b, where b[i] is that element, keeps a's rest inside b's rest. */
  lemma SubMultisetRest<T>(a: seq<T>, b: seq<T>, i: nat)
    requires a != [] && i < |b| && b[i] == a[0]
    requires multiset(a) <= multiset(b)
    ensures multiset(a[1..]) <= multiset(b[..i] + b[i + 1..])
  {
    var rest := b[..i] + b[i + 1..];
    assert b == b[..i] + [b[i]] + b[i + 1..];
    assert a == [a[0]] + a[1..];
    assert multiset(a) == multiset{a[0]} + multiset(a[1..]);
    assert multiset(b) == multiset{a[0]} + multiset(rest);
    forall x ensures multiset(a[1..])[x] <= multiset(rest)[x] {
      assert (multiset{a[0]} + multiset(a[1..]))[x] <= (multiset{a[0]} + multiset(rest))[x];
    }
  }

  /** Summing over a reordering of the keys gives the same total. */
  lemma {:induction false} SumOverPermutation(a: seq<string>, b: seq<string>, m: map<string, nat>)
    requires forall j :: j in a ==> j in m
    requires multiset(a) == multiset(b)
    ensures forall j :: j in b ==> j in m
    ensures SumOver(a, m) == SumOver(b, m)
  {
    PermutationMembers(a, b);
    if a != [] {
      var i := PermutationHead(a, b);
      SumOverPermutation(a[1..], b[..i] + b[i + 1..], m);
      SumOverRemove(b, m, i);
    } else {
      assert |b| == |multiset(b)| == 0;
    }
  }

  lemma {:induction false} DistinctMultiplicity<T>(s: seq<T>, x: T)
    requires Distinct(s)
    ensures multiset(s)[x] <= 1
  {
    if s != [] {
      assert s == [s[0]] + s[1..];
      assert s[0] !in s[1..];
      DistinctMultiplicity(s[1..], x);
    }
  }

  /** A reordering of a list without repeats has none either. */
  lemma DistinctPermutation<T>(a: seq<T>, b: seq<T>)
    requires Distinct(a)
    requires multiset(a) == multiset(b)
    ensures Distinct(b)
  {
    forall i, j | 0 <= i < j < |b| ensures b[i] != b[j] {
      if b[i] == b[j] {
        assert b == b[..i] + [b[i]] + b[i + 1..j] + [b[j]] + b[j + 1..];
        assert multiset(b)[b[i]] >= 2;
        DistinctMultiplicity(a, b[i]);
        assert false;
      }
    }
  }

  /**
   * What a dictionary `m` with key list `keys` says about the strings
   * `seen` it counted: the keys, each listed once, are exactly the
   * strings seen, each maps to its number of occurrences, and the counts
   * add up to the number of strings seen.
   */
  ghost predicate Tally(m: map<string, nat>, keys: seq<string>, seen: seq<string>) {
    && Distinct(keys)
    && (forall k :: k in keys <==> k in m)
    && (forall k :: k in m <==> k in seen)
    && (forall k :: k in m ==> m[k] == multiset(seen)[k])
    && SumOver(keys, m) == |seen|
  }

  /** Counting a string not seen before: it becomes a new key with count 1. */
  lemma TallyNew(m: map<string, nat>, keys: seq<string>, seen: seq<string>, x: string)
    requires Tally(m, keys, seen) && x !in m
    ensures Tally(m[x := 1], keys + [x], seen + [x])
  {
    assert multiset(seen + [x]) == multiset(seen) + multiset{x};
    SumOverOtherKey(keys, m, x, 1);
    SumOverAppend(keys, x, m[x := 1]);
    assert Distinct(keys + [x]);
  }

  /** Counting a string seen before: its count goes up by 1. */
  lemma TallyAgain(m: map<string, nat>, keys: seq<string>, seen: seq<string>, x: string)
    requires Tally(m, keys, seen) && x in m
    ensures Tally(m[x := m[x] + 1], keys, seen + [x])
  {
    assert multiset(seen + [x]) == multiset(seen) + multiset{x};
    SumOverIncrement(keys, m, x);
  }

  /** The dictionary after counting `s` one string at a time: a new key starts at 1, an old one goes up by 1. */
  function Counts(s: seq<string>): map<string, nat> {
    if s == [] then map[]
    else
      var m := Counts(s[..|s| - 1]);
      var x := s[|s| - 1];
      if x in m then m[x := m[x] + 1] else m[x := 1]
  }

  /** Its keys in the order they were added: a string is appended when it is not yet a key. */
  function FirstSeen(s: seq<string>): seq<string> {
    if s == [] then []
    else if s[|s| - 1] in Counts(s[..|s| - 1]) then FirstSeen(s[..|s| - 1])
    else FirstSeen(s[..|s| - 1]) + [s[|s| - 1]]
  }

  /** Every count in the dictionary is at least 1. */
  lemma {:induction false} CountsPositive(s: seq<string>)
    ensures forall k :: k in Counts(s) ==> Counts(s)[k] >= 1
  {
    if s != [] {
      CountsPositive(s[..|s| - 1]);
    }
  }

  /** Counting one more string. */
  lemma CountsStep(s: seq<string>, x: string)
    ensures Counts(s + [x]) == if x in Counts(s) then Counts(s)[x := Counts(s)[x] + 1] else Counts(s)[x := 1]
    ensures FirstSeen(s + [x]) == if x in Counts(s) then FirstSeen(s) else FirstSeen(s) + [x]
  {
    assert (s + [x])[..|s|] == s;
  }

  /**
   * Counting strings into a dictionary one at a time leaves every string
   * seen as a key exactly once, mapped to its number of occurrences, with
   * counts that add up to the number of strings.
   */
  lemma {:induction false} CountsTally(s: seq<string>)
    ensures Tally(Counts(s), FirstSeen(s), s)
  {
    if s != [] {
      var init, x := s[..|s| - 1], s[|s| - 1];
      assert s == init + [x];
      CountsTally(init);
      if x in Counts(init) {
        TallyAgain(Counts(init), FirstSeen(init), init, x);
      } else {
        TallyNew(Counts(init), FirstSeen(init), init, x);
      }
    }
  }
}
