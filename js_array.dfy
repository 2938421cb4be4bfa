/**
 * The Array.prototype methods the storefront code calls (find, filter, map,
 * join), as functions over immutable sequences, with the facts about them that
 * the rest of the model relies on.
 */
module JsArray {
  import opened Wrappers

  /** `s.find(p)`: the first element satisfying p, searching from index `from`. */
  function FindFrom<T>(s: seq<T>, p: T -> bool, from: nat): (r: Option<T>)
    requires from <= |s|
    ensures r.Some? ==> r.value in s && p(r.value)
    ensures r.None? <==> forall i :: from <= i < |s| ==> !p(s[i])
    ensures forall i :: from <= i < |s| && p(s[i]) && (forall j :: from <= j < i ==> !p(s[j])) ==> r == Some(s[i])
    decreases |s| - from
  {
    if from == |s| then None
    else if p(s[from]) then Some(s[from])
    else FindFrom(s, p, from + 1)
  }

  /** `s.find(p)`: the first element of s satisfying p, or undefined. */
  function Find<T>(s: seq<T>, p: T -> bool): Option<T> {
    FindFrom(s, p, 0)
  }

  /** `s.filter(p)`: the elements satisfying p, in their original order. */
  function Filter<T>(s: seq<T>, p: T -> bool): (r: seq<T>)
    ensures |r| <= |s|
    ensures forall i :: 0 <= i < |r| ==> r[i] in s && p(r[i])
  {
    if s == [] then []
    else if p(s[0]) then [s[0]] + Filter(s[1..], p)
    else Filter(s[1..], p)
  }

  /** `s.map(f)`: f applied to every element, in order. */
  function Map<A, B>(s: seq<A>, f: A --> B): (r: seq<B>)
    requires forall i :: 0 <= i < |s| ==> f.requires(s[i])
    ensures |r| == |s|
    ensures forall i :: 0 <= i < |s| ==> r[i] == f(s[i])
  {
    if s == [] then [] else [f(s[0])] + Map(s[1..], f)
  }

  /** Strictly increasing indices: each one above the one before it. */
  ghost predicate Increasing(ix: seq<nat>) {
    forall k :: 0 < k < |ix| ==> ix[k - 1] < ix[k]
  }

  /** The indices i >= from with p(s[i]), in increasing order: where `Filter` takes its elements from. */
  function PositionsFrom<T>(s: seq<T>, p: T -> bool, from: nat): (ix: seq<nat>)
    requires from <= |s|
    ensures forall k :: 0 <= k < |ix| ==> from <= ix[k] < |s| && p(s[ix[k]])
    ensures forall i :: from <= i < |s| && p(s[i]) ==> i in ix
    ensures Increasing(ix)
    decreases |s| - from
  {
    if from == |s| then []
    else if p(s[from]) then [from] + PositionsFrom(s, p, from + 1)
    else PositionsFrom(s, p, from + 1)
  }

  function Positions<T>(s: seq<T>, p: T -> bool): seq<nat> {
    PositionsFrom(s, p, 0)
  }

  lemma FilterCons<T>(x: T, s: seq<T>, p: T -> bool)
    ensures Filter([x] + s, p) == if p(x) then [x] + Filter(s, p) else Filter(s, p)
  {
    assert ([x] + s)[1..] == s;
  }

  lemma {:induction false} FilterAtPositionsFrom<T>(s: seq<T>, p: T -> bool, from: nat)
    requires from <= |s|
    ensures |Filter(s[from..], p)| == |PositionsFrom(s, p, from)|
    ensures forall k :: 0 <= k < |PositionsFrom(s, p, from)| ==>
              Filter(s[from..], p)[k] == s[PositionsFrom(s, p, from)[k]]
    decreases |s| - from
  {
    if from < |s| {
      var x, rest := s[from], s[from + 1..];
      assert s[from..] == [x] + rest;
      FilterCons(x, rest, p);
      FilterAtPositionsFrom(s, p, from + 1);
      var fr, ixr := Filter(rest, p), PositionsFrom(s, p, from + 1);
      if p(x) {
        var f, ix := [x] + fr, [from] + ixr;
        assert PositionsFrom(s, p, from) == ix;
        forall k | 0 <= k < |ix| ensures f[k] == s[ix[k]] {
          if k == 0 {
            assert f[0] == x && ix[0] == from;
          } else {
            assert f[k] == fr[k - 1] && ix[k] == ixr[k - 1];
          }
        }
      } else {
        assert PositionsFrom(s, p, from) == ixr;
      }
    }
  }

  /**
   * `s.filter(p)` is the subsequence of s at the positions where p holds:
   * nothing is reordered, duplicated or invented, and nothing satisfying p is lost.
   */
  lemma FilterAtPositions<T>(s: seq<T>, p: T -> bool)
    ensures |Filter(s, p)| == |Positions(s, p)|
    ensures forall k :: 0 <= k < |Positions(s, p)| ==> Filter(s, p)[k] == s[Positions(s, p)[k]]
  {
    FilterAtPositionsFrom(s, p, 0);
    assert s[0..] == s;
  }

  /** What holds of every element of s holds of every element kept by a filter. */
  lemma FilterKeeps<T>(s: seq<T>, p: T -> bool, q: T -> bool)
    requires forall i :: 0 <= i < |s| ==> q(s[i])
    ensures forall i :: 0 <= i < |Filter(s, p)| ==> q(Filter(s, p)[i])
  {
  }

  lemma MapCons<A, B>(x: A, s: seq<A>, f: A --> B)
    requires f.requires(x) && forall i :: 0 <= i < |s| ==> f.requires(s[i])
    ensures Map([x] + s, f) == [f(x)] + Map(s, f)
  {
    assert ([x] + s)[1..] == s;
  }

  /** The head's share of a filter, map and filter chain: its image, or nothing. */
  lemma FilterMapFilterCons<A, B>(x: A, s: seq<A>, p: A -> bool, f: A --> B, q: B -> bool)
    requires forall y :: p(y) ==> f.requires(y)
    ensures Filter(Map(Filter([x] + s, p), f), q)
            == (if p(x) && q(f(x)) then [f(x)] else []) + Filter(Map(Filter(s, p), f), q)
  {
    var kept := Filter(s, p);
    var mapped := Map(kept, f);
    FilterCons(x, s, p);
    if p(x) {
      MapCons(x, kept, f);
      FilterCons(f(x), mapped, q);
    }
  }

  /** Two predicates that agree element by element select the same positions. */
  lemma {:induction false} PositionsAgree<A, B>(s: seq<A>, p: A -> bool, t: seq<B>, q: B -> bool, from: nat)
    requires |s| == |t| && from <= |s|
    requires forall i :: 0 <= i < |s| ==> p(s[i]) == q(t[i])
    ensures PositionsFrom(s, p, from) == PositionsFrom(t, q, from)
    decreases |s| - from
  {
    if from < |s| {
      PositionsAgree(s, p, t, q, from + 1);
    }
  }

  /** `parts.join(sep)`, built left to right as Array.prototype.join does. */
  function Join(parts: seq<string>, sep: string): (r: string)
    ensures |parts| > 0 ==> |r| >= |parts[0]| && r[..|parts[0]|] == parts[0]
  {
    if |parts| == 0 then ""
    else if |parts| == 1 then parts[0]
    else Join(parts[..|parts| - 1], sep) + sep + parts[|parts| - 1]
  }

  /** Joining is also a right fold: the first part, the separator, then the rest joined. */
  lemma {:induction false} JoinCons(x: string, xs: seq<string>, sep: string)
    requires |xs| > 0
    ensures Join([x] + xs, sep) == x + sep + Join(xs, sep)
    decreases |xs|
  {
    var all := [x] + xs;
    var last := xs[|xs| - 1];
    assert all[|all| - 1] == last;
    if |xs| > 1 {
      var init := xs[..|xs| - 1];
      assert all[..|all| - 1] == [x] + init;
      assert Join(all, sep) == Join([x] + init, sep) + sep + last;
      JoinCons(x, init, sep);
      assert Join(xs, sep) == Join(init, sep) + sep + last;
    } else {
      assert all[..1] == [x];
      assert Join(all, sep) == x + sep + last;
    }
  }

  /** The summed lengths of a list of strings. */
  function TotalLength(parts: seq<string>): nat {
    if parts == [] then 0 else |parts[0]| + TotalLength(parts[1..])
  }

  /** A join of n >= 1 parts is as long as the parts plus n - 1 separators. */
  lemma {:induction false} JoinLength(parts: seq<string>, sep: string)
    requires |parts| > 0
    ensures |Join(parts, sep)| == TotalLength(parts) + (|parts| - 1) * |sep|
    decreases |parts|
  {
    if |parts| > 1 {
      var rest := parts[1..];
      assert [parts[0]] + rest == parts;
      JoinLength(rest, sep);
      JoinCons(parts[0], rest, sep);
      assert |Join(parts, sep)| == |parts[0]| + |sep| + |Join(rest, sep)|;
      assert (|parts| - 1) * |sep| == |sep| + (|rest| - 1) * |sep|;
    }
  }
}
