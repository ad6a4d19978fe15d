/** Generic sequence functions: the searches, counts and filters the repository performs on rows and characters. */
module Seqs {
  import opened Wrappers

  /** The index of the first element satisfying `p`, as `Iterator::find` and `LIMIT 1` scans pick it. */
  function FirstIndex<T>(s: seq<T>, p: T -> bool): (r: Option<nat>)
    ensures r.Some? ==> r.value < |s| && p(s[r.value])
    ensures r.Some? ==> forall j :: 0 <= j < r.value ==> !p(s[j])
    ensures r.None? <==> forall j :: 0 <= j < |s| ==> !p(s[j])
  {
    if |s| == 0 then None
    else if p(s[0]) then Some(0)
    else match FirstIndex(s[1..], p)
      case None => None
      case Some(i) => Some(i + 1)
  }

  /** The number of elements satisfying `p`: the affected-row count of a statement filtered by `p`. */
  function Count<T>(s: seq<T>, p: T -> bool): (n: nat)
    ensures n <= |s|
    ensures n == 0 <==> forall j :: 0 <= j < |s| ==> !p(s[j])
  {
    if |s| == 0 then 0 else Count(s[..|s| - 1], p) + (if p(s[|s| - 1]) then 1 else 0)
  }

  /** The elements satisfying `p`, in their original order. */
  function Filter<T>(s: seq<T>, p: T -> bool): (r: seq<T>)
    ensures |r| <= |s|
    ensures forall j :: 0 <= j < |r| ==> r[j] in s && p(r[j])
    ensures forall j :: 0 <= j < |s| && p(s[j]) ==> s[j] in r
  {
    if |s| == 0 then [] else Filter(s[..|s| - 1], p) + (if p(s[|s| - 1]) then [s[|s| - 1]] else [])
  }

  /** At most the first `n` elements, as `Iterator::take`. */
  function Take<T>(s: seq<T>, n: nat): (r: seq<T>)
    ensures |r| == if n <= |s| then n else |s|
    ensures r <= s
  {
    if n <= |s| then s[..n] else s
  }

  /** The largest value of `f` over `s`, or 0 for an empty sequence. */
  function MaxOf<T>(s: seq<T>, f: T -> int): (m: int)
    ensures m >= 0
    ensures forall j :: 0 <= j < |s| ==> f(s[j]) <= m
  {
    if |s| == 0 then 0
    else var m := MaxOf(s[..|s| - 1], f); if f(s[|s| - 1]) > m then f(s[|s| - 1]) else m
  }

  /** When no two elements both satisfy `p`, at most one is counted, and exactly one when some element does. */
  lemma {:induction false} CountAtMostOne<T>(s: seq<T>, p: T -> bool)
    requires forall i, j :: 0 <= i < j < |s| && p(s[i]) ==> !p(s[j])
    ensures Count(s, p) <= 1
    ensures Count(s, p) == 1 <==> exists j :: 0 <= j < |s| && p(s[j])
  {
    if |s| > 0 {
      var init := s[..|s| - 1];
      assert forall i, j :: 0 <= i < j < |init| && p(init[i]) ==> !p(init[j]) by {
        forall i, j | 0 <= i < j < |init| && p(init[i]) ensures !p(init[j]) {
          assert init[i] == s[i] && init[j] == s[j];
        }
      }
      CountAtMostOne(init, p);
      if p(s[|s| - 1]) {
        assert forall j :: 0 <= j < |init| ==> !p(init[j]) by {
          forall j | 0 <= j < |init| ensures !p(init[j]) {
            assert init[j] == s[j];
          }
        }
      } else {
        if exists j :: 0 <= j < |s| && p(s[j]) {
          var j :| 0 <= j < |s| && p(s[j]);
          assert init[j] == s[j];
        }
      }
    }
  }

  /** Filtering a sequence all of whose elements are kept returns it unchanged. */
  lemma {:induction false} FilterAllKept<T>(s: seq<T>, p: T -> bool)
    requires forall j :: 0 <= j < |s| ==> p(s[j])
    ensures Filter(s, p) == s
  {
    if |s| > 0 {
      FilterAllKept(s[..|s| - 1], p);
      assert s[..|s| - 1] + [s[|s| - 1]] == s;
    }
  }

  /** Filtering away exactly one element, the one at `i`, leaves the rest in order. */
  lemma {:induction false} FilterDropsOne<T>(s: seq<T>, p: T -> bool, i: nat)
    requires i < |s| && !p(s[i])
    requires forall j :: 0 <= j < |s| && j != i ==> p(s[j])
    ensures Filter(s, p) == s[..i] + s[i + 1..]
  {
    var init := s[..|s| - 1];
    if i == |s| - 1 {
      FilterAllKept(init, p);
    } else {
      FilterDropsOne(init, p, i);
      assert init[..i] == s[..i];
      assert init[i + 1..] + [s[|s| - 1]] == s[i + 1..];
    }
  }

  /** Filtering a one-element extension adds that element exactly when it is kept. */
  lemma FilterSnoc<T>(s: seq<T>, x: T, p: T -> bool)
    ensures Filter(s + [x], p) == Filter(s, p) + (if p(x) then [x] else [])
  {
    assert (s + [x])[..|s + [x]| - 1] == s;
  }

  /** A filter keeps exactly as many elements as it counts. */
  lemma {:induction false} FilterLength<T>(s: seq<T>, p: T -> bool)
    ensures |Filter(s, p)| == Count(s, p)
  {
    if |s| > 0 {
      FilterLength(s[..|s| - 1], p);
    }
  }

  /** Filtering a one-element prefix adds that element in front exactly when it is kept. */
  lemma {:induction false} FilterCons<T>(x: T, s: seq<T>, p: T -> bool)
    ensures Filter([x] + s, p) == (if p(x) then [x] else []) + Filter(s, p)
    decreases |s|
  {
    var t := [x] + s;
    if |s| == 0 {
      assert t[..|t| - 1] == [];
    } else {
      assert t[..|t| - 1] == [x] + s[..|s| - 1];
      assert t[|t| - 1] == s[|s| - 1];
      FilterCons(x, s[..|s| - 1], p);
    }
  }
}
