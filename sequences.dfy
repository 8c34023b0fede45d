/** The two array operations the resolvers are built from, as pure functions on sequences:
    `Array.prototype.find` (first element satisfying a predicate) and
    `Array.prototype.filter` (the elements satisfying it, in order). */
module Sequences {
  import opened Wrappers

  /** The first element of `s`, in sequence order, for which `p` holds; `None` if there is none. */
  function Find<T>(s: seq<T>, p: T -> bool): (r: Option<T>)
    ensures r.None? <==> forall i :: 0 <= i < |s| ==> !p(s[i])
    ensures r.Some? ==>
      exists i :: 0 <= i < |s| && s[i] == r.value && p(s[i]) && forall j :: 0 <= j < i ==> !p(s[j])
  {
    if |s| == 0 then None
    else if p(s[0]) then Some(s[0])
    else
      var r := Find(s[1..], p);
      assert r.Some? ==> exists i :: 1 <= i < |s| && s[i] == r.value && p(s[i]) && forall j :: 0 <= j < i ==> !p(s[j]) by {
        if r.Some? {
          var k :| 0 <= k < |s[1..]| && s[1..][k] == r.value && p(s[1..][k]) && forall j :: 0 <= j < k ==> !p(s[1..][j]);
          assert forall j :: 0 <= j < k + 1 ==> !p(s[j]) by {
            forall j | 0 <= j < k + 1 ensures !p(s[j]) {
              if j > 0 { assert s[j] == s[1..][j - 1]; }
            }
          }
          assert s[k + 1] == r.value;
        }
      }
      r
  }

  /** The elements of `s` for which `p` holds, in their original relative order. */
  function Filter<T>(s: seq<T>, p: T -> bool): (r: seq<T>)
    ensures |r| <= |s|
    ensures forall i :: 0 <= i < |r| ==> r[i] in s && p(r[i])
    ensures forall i :: 0 <= i < |s| && p(s[i]) ==> s[i] in r
    ensures (forall i :: 0 <= i < |s| ==> p(s[i])) ==> r == s
    ensures (exists i :: 0 <= i < |s| && !p(s[i])) ==> |r| < |s|
  {
    if |s| == 0 then []
    else
      var rest := Filter(s[1..], p);
      assert forall i :: 1 <= i < |s| ==> s[i] == s[1..][i - 1];
      assert (exists i :: 1 <= i < |s| && !p(s[i])) ==> exists i :: 0 <= i < |s[1..]| && !p(s[1..][i]) by {
        if exists i :: 1 <= i < |s| && !p(s[i]) {
          var i :| 1 <= i < |s| && !p(s[i]);
          assert s[1..][i - 1] == s[i];
        }
      }
      if p(s[0]) then [s[0]] + rest else rest
  }

  /** Filtering distributes over concatenation: kept elements stay in their relative order. */
  lemma {:induction false} FilterAppend<T>(a: seq<T>, b: seq<T>, p: T -> bool)
    ensures Filter(a + b, p) == Filter(a, p) + Filter(b, p)
  {
    if |a| == 0 {
      assert a + b == b;
    } else {
      assert (a + b)[1..] == a[1..] + b;
      FilterAppend(a[1..], b, p);
    }
  }

  /** Filtering out exactly one element shortens the sequence by exactly one. */
  lemma {:induction false} FilterDropsOne<T>(s: seq<T>, p: T -> bool, k: nat)
    requires k < |s| && !p(s[k])
    requires forall j :: 0 <= j < |s| && j != k ==> p(s[j])
    ensures |Filter(s, p)| == |s| - 1
  {
    if k == 0 {
      assert forall j :: 0 <= j < |s[1..]| ==> p(s[1..][j]) by {
        forall j | 0 <= j < |s[1..]| ensures p(s[1..][j]) { assert s[1..][j] == s[j + 1]; }
      }
    } else {
      forall j | 0 <= j < |s[1..]| && j != k - 1 ensures p(s[1..][j]) { assert s[1..][j] == s[j + 1]; }
      FilterDropsOne(s[1..], p, k - 1);
    }
  }
}
