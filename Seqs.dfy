/**
 * Sequence operations the front end performs through JavaScript's array
 * methods: `filter` (Keep), `map` (MapSeq), `slice(0, n)` (Take), and the
 * "push if not already included" idiom, which also describes
 * `Array.from(new Set(xs))` (Dedup). Each comes with the lemmas that the
 * component models rely on.
 */
module Seqs {

  /** No element of `s` occurs twice. */
  ghost predicate NoDup<T>(s: seq<T>) {
    forall i, j :: 0 <= i < j < |s| ==> s[i] != s[j]
  }

  // ---------------------------------------------------------------------
  // filter

  /** `s.filter(p)`: the elements of `s` satisfying `p`, in their order. */
  function Keep<T>(s: seq<T>, p: T -> bool): (r: seq<T>)
    ensures |r| <= |s|
    ensures forall i :: 0 <= i < |r| ==> p(r[i])
  {
    if s == [] then []
    else if p(s[0]) then [s[0]] + Keep(s[1..], p)
    else Keep(s[1..], p)
  }

  /** `s.filter(p)` holds exactly the elements of `s` that satisfy `p`. */
  lemma {:induction false} KeepMembers<T>(s: seq<T>, p: T -> bool)
    ensures forall x :: x in Keep(s, p) <==> x in s && p(x)
  {
    if s != [] {
      KeepMembers(s[1..], p);
      assert s == [s[0]] + s[1..];
    }
  }

  /** The conjunction of two element tests. */
  function Both<T>(p: T -> bool, q: T -> bool): T -> bool {
    x => p(x) && q(x)
  }

  lemma PrefixIncreasing(idx: seq<nat>, n: nat)
    requires Increasing(idx) && n <= |idx|
    ensures Increasing(idx[..n])
  {
  }

  /** `r` lists the elements of `s` at the positions `idx`. */
  ghost predicate Selects<T>(idx: seq<nat>, r: seq<T>, s: seq<T>) {
    |idx| == |r| && forall k :: 0 <= k < |idx| ==> idx[k] < |s| && r[k] == s[idx[k]]
  }

  ghost predicate Increasing(idx: seq<nat>) {
    forall k, l :: 0 <= k < l < |idx| ==> idx[k] < idx[l]
  }

  /** `idx` holds exactly the positions of `s` whose element satisfies `p`. */
  ghost predicate Covers<T>(idx: seq<nat>, s: seq<T>, p: T -> bool) {
    forall j :: 0 <= j < |s| ==> (j in idx <==> p(s[j]))
  }

  /**
   * `idx` lists, in increasing order, exactly the positions of `s` whose
   * element satisfies `p`, and `r` is the sequence of those elements.
   * This pins `r` down completely: the right elements, each as often as in
   * `s`, in their original relative order.
   */
  ghost predicate Picks<T>(idx: seq<nat>, r: seq<T>, s: seq<T>, p: T -> bool) {
    Selects(idx, r, s) && Increasing(idx) && Covers(idx, s, p)
  }

  /** The positions `Keep` selects. */
  ghost function Positions<T>(s: seq<T>, p: T -> bool): seq<nat> {
    if s == [] then []
    else (if p(s[0]) then [0] else []) + Shift(Positions(s[1..], p))
  }

  /** Every position moved one to the right. */
  ghost function Shift(idx: seq<nat>): (r: seq<nat>)
    ensures |r| == |idx|
    ensures forall k :: 0 <= k < |idx| ==> r[k] == idx[k] + 1
  {
    seq(|idx|, k requires 0 <= k < |idx| => idx[k] + 1)
  }

  lemma ShiftMembers(idx: seq<nat>, j: nat)
    ensures j in Shift(idx) <==> j > 0 && j - 1 in idx
  {
    var r := Shift(idx);
    if j in r {
      var k :| 0 <= k < |r| && r[k] == j;
    }
    if j > 0 && j - 1 in idx {
      var k :| 0 <= k < |idx| && idx[k] == j - 1;
      assert r[k] == j;
    }
  }

  lemma {:induction false} PositionsSelect<T>(s: seq<T>, p: T -> bool)
    ensures Selects(Positions(s, p), Keep(s, p), s)
  {
    if s != [] {
      PositionsSelect(s[1..], p);
      var rest, t := Positions(s[1..], p), Keep(s[1..], p);
      var f := if p(s[0]) then 1 else 0;
      var idx, r := Positions(s, p), Keep(s, p);
      assert idx == (if p(s[0]) then [0] else []) + Shift(rest);
      assert r == (if p(s[0]) then [s[0]] else []) + t;
      forall k | f <= k < |idx| ensures idx[k] < |s| && r[k] == s[idx[k]] {
        assert idx[k] == rest[k - f] + 1 && r[k] == t[k - f];
      }
    }
  }

  lemma {:induction false} PositionsIncrease<T>(s: seq<T>, p: T -> bool)
    ensures Increasing(Positions(s, p))
  {
    if s != [] {
      PositionsIncrease(s[1..], p);
      var rest := Positions(s[1..], p);
      var f := if p(s[0]) then 1 else 0;
      var idx := Positions(s, p);
      assert idx == (if p(s[0]) then [0] else []) + Shift(rest);
      forall k, l | 0 <= k < l < |idx| ensures idx[k] < idx[l] {
        if k >= f {
          assert idx[k] == rest[k - f] + 1 && idx[l] == rest[l - f] + 1;
        } else {
          assert idx[l] == rest[l - f] + 1;
        }
      }
    }
  }

  lemma {:induction false} PositionsCover<T>(s: seq<T>, p: T -> bool)
    ensures Covers(Positions(s, p), s, p)
  {
    if s != [] {
      PositionsCover(s[1..], p);
      var rest := Positions(s[1..], p);
      var idx := Positions(s, p);
      assert idx == (if p(s[0]) then [0] else []) + Shift(rest);
      forall j | 0 <= j < |s| ensures j in idx <==> p(s[j]) {
        ShiftMembers(rest, j);
        if j > 0 {
          assert s[j] == s[1..][j - 1];
        }
      }
    }
  }

  /** `Keep` selects exactly the satisfying positions, in order. */
  lemma KeepPositions<T>(s: seq<T>, p: T -> bool) returns (idx: seq<nat>)
    ensures Picks(idx, Keep(s, p), s, p)
  {
    idx := Positions(s, p);
    PositionsSelect(s, p);
    PositionsIncrease(s, p);
    PositionsCover(s, p);
  }

  /** Filtering twice is filtering once by both tests (two chained `.filter` calls). */
  lemma {:induction false} KeepKeep<T>(s: seq<T>, p: T -> bool, q: T -> bool)
    ensures Keep(Keep(s, p), q) == Keep(s, Both(p, q))
  {
    if s != [] {
      KeepKeep(s[1..], p, q);
      if p(s[0]) {
        var t := [s[0]] + Keep(s[1..], p);
        assert t[0] == s[0] && t[1..] == Keep(s[1..], p);
      }
    }
  }

  /** Filtering distributes over concatenation. */
  lemma {:induction false} KeepAppend<T>(a: seq<T>, b: seq<T>, p: T -> bool)
    ensures Keep(a + b, p) == Keep(a, p) + Keep(b, p)
  {
    if a != [] {
      assert (a + b)[0] == a[0] && (a + b)[1..] == a[1..] + b;
      KeepAppend(a[1..], b, p);
    } else {
      assert a + b == b;
    }
  }

  /** A filter that every element passes changes nothing. */
  lemma {:induction false} KeepAll<T>(s: seq<T>, p: T -> bool)
    requires forall i :: 0 <= i < |s| ==> p(s[i])
    ensures Keep(s, p) == s
  {
    if s != [] {
      KeepAll(s[1..], p);
    }
  }

  /** A filter that only the element at position `k` fails removes just that position. */
  lemma {:induction false} KeepDropsOne<T>(s: seq<T>, k: nat, p: T -> bool)
    requires k < |s| && !p(s[k])
    requires forall j :: 0 <= j < |s| && j != k ==> p(s[j])
    ensures Keep(s, p) == s[..k] + s[k + 1..]
  {
    var t := s[1..];
    if k == 0 {
      assert forall i :: 0 <= i < |t| ==> p(t[i]) by {
        assert forall i :: 0 <= i < |t| ==> t[i] == s[i + 1];
      }
      KeepAll(t, p);
    } else {
      assert forall j :: 0 <= j < |t| && j != k - 1 ==> p(t[j]) by {
        assert forall j :: 0 <= j < |t| ==> t[j] == s[j + 1];
      }
      KeepDropsOne(t, k - 1, p);
      assert t[..k - 1] == s[1..k] && t[k..] == s[k + 1..];
      assert s[..k] == [s[0]] + s[1..k];
    }
  }

  /** Filtering a duplicate-free sequence leaves it duplicate-free. */
  lemma {:induction false} KeepNoDup<T>(s: seq<T>, p: T -> bool)
    requires NoDup(s)
    ensures NoDup(Keep(s, p))
  {
    if s != [] {
      assert NoDup(s[1..]) by {
        forall i, j | 0 <= i < j < |s[1..]| ensures s[1..][i] != s[1..][j] {
          assert s[1..][i] == s[i + 1] && s[1..][j] == s[j + 1];
        }
      }
      KeepNoDup(s[1..], p);
      if p(s[0]) {
        assert s[0] !in s[1..] by {
          forall j | 0 <= j < |s[1..]| ensures s[1..][j] != s[0] {
            assert s[1..][j] == s[j + 1];
          }
        }
        var r := [s[0]] + Keep(s[1..], p);
        forall i, j | 0 <= i < j < |r| ensures r[i] != r[j] {
          if i == 0 {
            KeepMembers(s[1..], p);
            assert r[j] in Keep(s[1..], p);
          } else {
            assert r[i] == Keep(s[1..], p)[i - 1] && r[j] == Keep(s[1..], p)[j - 1];
          }
        }
      }
    }
  }

  // ---------------------------------------------------------------------
  // map and slice

  /** `s.map(f)`. */
  function MapSeq<T, U>(s: seq<T>, f: T -> U): (r: seq<U>)
    ensures |r| == |s|
    ensures forall i :: 0 <= i < |s| ==> r[i] == f(s[i])
  {
    seq(|s|, i requires 0 <= i < |s| => f(s[i]))
  }

  /** `s.slice(0, n)`: the first `n` elements, or all of them when fewer. */
  function Take<T>(s: seq<T>, n: nat): (r: seq<T>)
    ensures |r| <= n && r <= s
    ensures |r| == n || r == s
  {
    if |s| <= n then s else s[..n]
  }

  // ---------------------------------------------------------------------
  // first-appearance de-duplication

  /**
   * The distinct elements of `s` in order of first appearance: what a loop
   * computes that pushes each element unless the output already includes
   * it, and what `Array.from(new Set(s))` returns.
   */
  function Dedup<T(==)>(s: seq<T>): seq<T> {
    if s == [] then []
    else
      var d := Dedup(s[..|s| - 1]);
      if s[|s| - 1] in d then d else d + [s[|s| - 1]]
  }

  /** `Dedup` keeps every element of `s` exactly once and adds nothing. */
  lemma {:induction false} DedupSpec<T>(s: seq<T>)
    ensures NoDup(Dedup(s))
    ensures forall x :: x in Dedup(s) <==> x in s
    ensures |Dedup(s)| <= |s|
  {
    if s != [] {
      var p := s[..|s| - 1];
      DedupSpec(p);
      assert s == p + [s[|s| - 1]];
    }
  }

  /** The membership half of `DedupSpec`, for one element. */
  lemma DedupMember<T>(s: seq<T>, x: T)
    ensures x in Dedup(s) <==> x in s
  {
    DedupSpec(s);
  }

  /** One step of the push-if-absent loop. */
  lemma DedupSnoc<T>(s: seq<T>, x: T)
    ensures Dedup(s + [x]) == if x in Dedup(s) then Dedup(s) else Dedup(s) + [x]
  {
    assert (s + [x])[..|s + [x]| - 1] == s;
  }

  /** The position where `x` first occurs in `s`, or `|s|` when it does not occur. */
  ghost function FirstIndex<T>(s: seq<T>, x: T): (i: nat)
    ensures i <= |s|
    ensures i < |s| <==> x in s
    ensures i < |s| ==> s[i] == x
    ensures forall j :: 0 <= j < i ==> s[j] != x
  {
    if s == [] then 0 else if s[0] == x then 0 else 1 + FirstIndex(s[1..], x)
  }

  /** Appending leaves the first occurrence of an element already present where it was. */
  lemma FirstIndexPrefix<T>(s: seq<T>, t: seq<T>, x: T)
    requires x in s
    ensures FirstIndex(s + t, x) == FirstIndex(s, x)
  {
    var i := FirstIndex(s, x);
    var k := FirstIndex(s + t, x);
    assert (s + t)[i] == x;
    assert k <= i;
    assert s[k] == x;
  }

  /**
   * `Dedup` lists the distinct elements in order of first appearance:
   * with `DedupSpec` this determines the result completely.
   */
  lemma {:induction false} DedupFirstAppearance<T>(s: seq<T>)
    ensures forall i, j :: 0 <= i < j < |Dedup(s)| ==>
      FirstIndex(s, Dedup(s)[i]) < FirstIndex(s, Dedup(s)[j])
  {
    if s != [] {
      var p, x := s[..|s| - 1], s[|s| - 1];
      assert s == p + [x];
      DedupFirstAppearance(p);
      DedupSpec(p);
      var d := Dedup(p);
      forall y | y in d ensures FirstIndex(s, y) == FirstIndex(p, y) < |p| {
        DedupMember(p, y);
        FirstIndexPrefix(p, [x], y);
      }
      if x !in d {
        assert FirstIndex(s, x) == |p|;
      }
    }
  }
}
