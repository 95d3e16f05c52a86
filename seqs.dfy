/**
 * Sequence vocabulary shared by the model: occurrence counts, duplicate-free
 * lists grown in first-seen order (Python's "append if not in list" and
 * dict insertion order), and order-preserving filters.
 */
module Seqs {

  /** Number of occurrences of x in s. */
  function Count<T(==)>(s: seq<T>, x: T): (n: nat)
    ensures n <= |s|
    ensures n > 0 <==> x in s
  {
    if s == [] then 0
    else Count(s[..|s| - 1], x) + (if s[|s| - 1] == x then 1 else 0)
  }

  predicate NoDup<T(==)>(s: seq<T>)
  {
    forall i, j :: 0 <= i < j < |s| ==> s[i] != s[j]
  }

  /** Position of the first occurrence of x in s (Python's list.index). */
  function FirstIndex<T(==)>(s: seq<T>, x: T): (k: nat)
    requires x in s
    ensures k < |s| && s[k] == x
    ensures forall i :: 0 <= i < k ==> s[i] != x
  {
    if s[0] == x then 0 else 1 + FirstIndex(s[1..], x)
  }

  /** The elements of r occur in s, and r lists them in the order s first shows them. */
  ghost predicate InFirstSeenOrder<T>(r: seq<T>, s: seq<T>)
  {
    forall i, j :: 0 <= i < j < |r| ==> r[i] in s && r[j] in s && FirstIndex(s, r[i]) < FirstIndex(s, r[j])
  }

  /**
   * acc followed by every element of s that is not yet present, each once,
   * in the order s first shows them: the effect of running
   * "if x not in acc: acc.append(x)" for every x of s.
   */
  function Extend<T(==)>(acc: seq<T>, s: seq<T>): (r: seq<T>)
    ensures |acc| <= |r| <= |acc| + |s|
  {
    if s == [] then acc
    else
      var r0 := Extend(acc, s[..|s| - 1]);
      if s[|s| - 1] in r0 then r0 else r0 + [s[|s| - 1]]
  }

  /**
   * Extending keeps what acc held as a prefix, adds exactly the elements of
   * s, and adds no duplicate.
   */
  lemma {:induction false} ExtendSpec<T>(acc: seq<T>, s: seq<T>)
    ensures |acc| <= |Extend(acc, s)| && Extend(acc, s)[..|acc|] == acc
    ensures forall x :: x in Extend(acc, s) <==> x in acc || x in s
    ensures NoDup(acc) ==> NoDup(Extend(acc, s))
  {
    if s != [] {
      ExtendSpec(acc, s[..|s| - 1]);
      var r0 := Extend(acc, s[..|s| - 1]);
      assert s == s[..|s| - 1] + [s[|s| - 1]];
      if s[|s| - 1] !in r0 {
        assert (r0 + [s[|s| - 1]])[..|acc|] == r0[..|acc|];
      }
    }
  }

  /** The distinct elements of s in first-seen order (pandas' Series.unique). */
  function Distinct<T(==)>(s: seq<T>): (r: seq<T>)
    ensures |r| <= |s|
    ensures NoDup(r)
  {
    ExtendSpec([], s);
    Extend([], s)
  }

  /** The elements of keys that belong to keep, in the order of keys. */
  function KeepWhere<T(==,!new)>(keys: seq<T>, keep: set<T>): (r: seq<T>)
    ensures |r| <= |keys|
    ensures forall x :: x in r <==> x in keys && x in keep
    ensures NoDup(keys) ==> NoDup(r)
  {
    if keys == [] then []
    else
      var r0 := KeepWhere(keys[..|keys| - 1], keep);
      if keys[|keys| - 1] in keep then r0 + [keys[|keys| - 1]] else r0
  }

  /** The keys of a count dictionary, in insertion order, whose count exceeds 1. */
  function KeysAbove1<T(==,!new)>(order: seq<T>, freq: map<T, int>): (r: seq<T>)
    requires forall k :: k in order ==> k in freq
    ensures forall x :: x in r <==> x in order && freq[x] > 1
  {
    if order == [] then []
    else
      var r0 := KeysAbove1(order[..|order| - 1], freq);
      if freq[order[|order| - 1]] > 1 then r0 + [order[|order| - 1]] else r0
  }

  /** The lists of tss, one after another. */
  function Flatten<T>(tss: seq<seq<T>>): seq<T>
  {
    if tss == [] then [] else Flatten(tss[..|tss| - 1]) + tss[|tss| - 1]
  }

  lemma FlattenLast<T>(tss: seq<seq<T>>, ts: seq<T>)
    ensures Flatten(tss + [ts]) == Flatten(tss) + ts
  {
    var e := tss + [ts];
    assert e[..|e| - 1] == tss && e[|e| - 1] == ts;
  }

  /** Extend appends a new element at the end and skips one already present. */
  lemma ExtendAppend<T>(acc: seq<T>, s: seq<T>, x: T)
    ensures Extend(acc, s + [x]) == if x in Extend(acc, s) then Extend(acc, s) else Extend(acc, s) + [x]
  {
    assert (s + [x])[..|s|] == s;
  }

  /** KeepWhere keeps a last key exactly when it is selected. */
  lemma KeepWhereAppend<T(!new)>(keys: seq<T>, keep: set<T>, x: T)
    ensures KeepWhere(keys + [x], keep) == if x in keep then KeepWhere(keys, keep) + [x] else KeepWhere(keys, keep)
  {
    assert (keys + [x])[..|keys|] == keys;
  }

  lemma ConcatAssoc<T>(x: seq<T>, y: seq<T>, z: seq<T>)
    ensures (x + y) + z == x + (y + z)
  {
  }

  lemma {:induction false} AppendPrefix<T>(s: seq<T>, x: T)
    ensures (s + [x])[..|s|] == s
  {
  }

  /** Appending an element adds one to its own count and leaves every other count alone. */
  lemma {:induction false} CountAppend<T>(s: seq<T>, x: T, y: T)
    ensures Count(s + [x], y) == Count(s, y) + (if x == y then 1 else 0)
  {
    assert (s + [x])[..|s|] == s;
  }

  /** The first occurrence of y in s is also its first occurrence in any extension of s. */
  lemma {:induction false} FirstIndexAppend<T>(s: seq<T>, t: seq<T>, y: T)
    requires y in s
    ensures y in s + t && FirstIndex(s + t, y) == FirstIndex(s, y)
  {
    if s[0] != y {
      assert (s + t)[1..] == s[1..] + t;
      FirstIndexAppend(s[1..], t, y);
    }
  }

  lemma {:induction false} FirstIndexOfNew<T>(s: seq<T>, x: T)
    requires x !in s
    ensures x in s + [x] && FirstIndex(s + [x], x) == |s|
  {
    if s != [] {
      assert (s + [x])[1..] == s[1..] + [x];
      FirstIndexOfNew(s[1..], x);
    }
  }

  /** Distinct(s) lists the elements of s without repetition, in first-seen order. */
  lemma DistinctFirstSeen<T>(s: seq<T>)
    ensures NoDup(Distinct(s))
    ensures forall x :: x in Distinct(s) <==> x in s
    ensures InFirstSeenOrder(Distinct(s), s)
  {
    ExtendSpec([], s);
    DistinctOrder(s);
  }

  lemma {:induction false} DistinctOrder<T>(s: seq<T>)
    ensures InFirstSeenOrder(Distinct(s), s)
  {
    if s != [] {
      var s0, x := s[..|s| - 1], s[|s| - 1];
      assert s == s0 + [x];
      DistinctOrder(s0);
      ExtendSpec([], s0);
      var d0 := Distinct(s0);
      var d := Distinct(s);
      forall y | y in s0 ensures y in s && FirstIndex(s, y) == FirstIndex(s0, y) {
        FirstIndexAppend(s0, [x], y);
      }
      if x in d0 {
        assert d == d0;
      } else {
        assert d == d0 + [x];
        FirstIndexOfNew(s0, x);
        forall i, j | 0 <= i < j < |d| ensures d[i] in s && d[j] in s && FirstIndex(s, d[i]) < FirstIndex(s, d[j]) {
          if j == |d| - 1 {
            assert d[i] == d0[i] && d0[i] in s0;
            assert FirstIndex(s0, d[i]) < |s0|;
          } else {
            assert d[i] == d0[i] && d[j] == d0[j];
          }
        }
      }
    }
  }

  /** A filter keeps the relative order of what it keeps. */
  lemma {:induction false} KeepWhereFirstSeen<T(!new)>(keys: seq<T>, keep: set<T>, s: seq<T>)
    requires InFirstSeenOrder(keys, s)
    ensures InFirstSeenOrder(KeepWhere(keys, keep), s)
  {
    if keys != [] {
      var k0 := keys[..|keys| - 1];
      assert InFirstSeenOrder(k0, s) by {
        forall i, j | 0 <= i < j < |k0| ensures k0[i] in s && k0[j] in s && FirstIndex(s, k0[i]) < FirstIndex(s, k0[j]) {
          assert k0[i] == keys[i] && k0[j] == keys[j];
        }
      }
      KeepWhereFirstSeen(k0, keep, s);
      var r0 := KeepWhere(k0, keep);
      var last := keys[|keys| - 1];
      if last in keep {
        var r := r0 + [last];
        forall i, j | 0 <= i < j < |r| ensures r[i] in s && r[j] in s && FirstIndex(s, r[i]) < FirstIndex(s, r[j]) {
          if j == |r| - 1 {
            assert r[i] in k0;
            var p :| 0 <= p < |k0| && k0[p] == r[i];
            assert keys[p] == r[i] && keys[|keys| - 1] == r[j];
            assert FirstIndex(s, keys[p]) < FirstIndex(s, keys[|keys| - 1]);
          } else {
            assert r[i] == r0[i] && r[j] == r0[j];
          }
        }
      }
    }
  }

  /** The count-dictionary filter agrees with a set filter when the counts say who is kept. */
  lemma {:induction false} KeysAbove1IsKeepWhere<T(!new)>(order: seq<T>, freq: map<T, int>, keep: set<T>)
    requires forall k :: k in order ==> k in freq && (freq[k] > 1 <==> k in keep)
    ensures KeysAbove1(order, freq) == KeepWhere(order, keep)
  {
    if order != [] {
      KeysAbove1IsKeepWhere(order[..|order| - 1], freq, keep);
    }
  }
}
