/** The category filter of the two listing pages, `array.filter` with a
    predicate (src/pages/Blog.tsx and src/pages/Portfolio.tsx), and what it
    means to keep exactly the matching entries in order. */
module Listing {

  /** `s.filter(keep)`, read from the last element back. */
  function Select<T>(s: seq<T>, keep: T -> bool): (r: seq<T>)
    ensures |r| <= |s|
  {
    if s == [] then []
    else Select(s[..|s| - 1], keep) + (if keep(s[|s| - 1]) then [s[|s| - 1]] else [])
  }

  /** `r` lists `s` at the strictly increasing positions `idx`. */
  ghost predicate IndexedBy<T>(r: seq<T>, s: seq<T>, idx: seq<int>) {
    |idx| == |r|
    && (forall k | 0 <= k < |idx| :: 0 <= idx[k] < |s| && r[k] == s[idx[k]])
    && (forall k, l | 0 <= k < l < |idx| :: idx[k] < idx[l])
  }

  /** `r` consists of exactly the entries of `s` that `keep` accepts, each
      once and in their order in `s`. */
  ghost predicate IsSelection<T>(r: seq<T>, s: seq<T>, keep: T -> bool) {
    exists idx: seq<int> :: IndexedBy(r, s, idx) && (forall j | 0 <= j < |s| :: keep(s[j]) <==> j in idx)
  }

  /** The positions `Select` keeps. */
  function Positions<T>(s: seq<T>, keep: T -> bool): seq<int> {
    if s == [] then []
    else Positions(s[..|s| - 1], keep) + (if keep(s[|s| - 1]) then [|s| - 1] else [])
  }

  lemma {:induction false} PositionsIndex<T>(s: seq<T>, keep: T -> bool)
    ensures IndexedBy(Select(s, keep), s, Positions(s, keep))
    ensures forall j | 0 <= j < |s| :: keep(s[j]) <==> j in Positions(s, keep)
    ensures forall k | 0 <= k < |Positions(s, keep)| :: Positions(s, keep)[k] < |s|
  {
    if s != [] {
      var init := s[..|s| - 1];
      PositionsIndex(init, keep);
      var last := |s| - 1;
      forall j | 0 <= j < last ensures s[j] == init[j] { }
    }
  }

  /** The filter keeps exactly the accepted entries, in order. */
  lemma SelectIsSelection<T>(s: seq<T>, keep: T -> bool)
    ensures IsSelection(Select(s, keep), s, keep)
  {
    PositionsIndex(s, keep);
    var idx := Positions(s, keep);
    assert IndexedBy(Select(s, keep), s, idx) && (forall j | 0 <= j < |s| :: keep(s[j]) <==> j in idx);
  }

  /** An accepted entry is kept as often as it occurs; any other is gone. */
  lemma {:induction false} SelectCounts<T>(s: seq<T>, keep: T -> bool)
    ensures forall x | keep(x) :: multiset(Select(s, keep))[x] == multiset(s)[x]
    ensures forall x | !keep(x) :: multiset(Select(s, keep))[x] == 0
  {
    if s != [] {
      var init := s[..|s| - 1];
      SelectCounts(init, keep);
      assert s == init + [s[|s| - 1]];
    }
  }

  /** Filtering a concatenation filters each part. */
  lemma {:induction false} SelectAppend<T>(a: seq<T>, b: seq<T>, keep: T -> bool)
    ensures Select(a + b, keep) == Select(a, keep) + Select(b, keep)
    decreases |b|
  {
    if b == [] {
      assert a + b == a;
    } else {
      var init := b[..|b| - 1];
      SelectAppend(a, init, keep);
      assert (a + b)[..|a + b| - 1] == a + init;
      assert (a + b)[|a + b| - 1] == b[|b| - 1];
    }
  }

  /** Filtering a list with one entry in front. */
  lemma SelectCons<T>(x: T, s: seq<T>, keep: T -> bool)
    ensures Select([x] + s, keep) == (if keep(x) then [x] else []) + Select(s, keep)
  {
    var one := [x];
    assert one[..|one| - 1] == [] && one[|one| - 1] == x;
    assert Select(one, keep) == (if keep(x) then [x] else []);
    SelectAppend(one, s, keep);
  }

  /** Accepting everything keeps the list as it is. */
  lemma {:induction false} SelectAll<T>(s: seq<T>, keep: T -> bool)
    requires forall j | 0 <= j < |s| :: keep(s[j])
    ensures Select(s, keep) == s
  {
    if s != [] {
      var init := s[..|s| - 1];
      assert forall j | 0 <= j < |init| :: keep(init[j]) by {
        forall j | 0 <= j < |init| ensures keep(init[j]) {
          assert init[j] == s[j];
        }
      }
      SelectAll(init, keep);
      assert s == init + [s[|s| - 1]];
    }
  }

  /** The result is empty exactly when no entry is accepted. */
  lemma {:induction false} SelectEmpty<T>(s: seq<T>, keep: T -> bool)
    ensures Select(s, keep) == [] <==> forall j | 0 <= j < |s| :: !keep(s[j])
  {
    if s != [] {
      var init := s[..|s| - 1];
      SelectEmpty(init, keep);
      assert forall j | 0 <= j < |init| :: init[j] == s[j];
    }
  }
}
