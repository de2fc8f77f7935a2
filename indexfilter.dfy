/**
 * Index-based filtering of a parallel corpus field, as `remove_indices` does
 * with `[v for i, v in enumerate(field) if i not in indices_to_rm]`.
 */
module IndexFilter {

  /** The indices below `n` that are not listed in `rm`, in increasing order. */
  function KeptIndices(n: nat, rm: seq<nat>): (k: seq<nat>)
    ensures |k| <= n
    ensures forall a :: 0 <= a < |k| ==> k[a] < n
    decreases n
  {
    if n == 0 then []
    else KeptIndices(n - 1, rm) + (if n - 1 in rm then [] else [n - 1])
  }

  /** Exactly the indices below `n` missing from `rm` are kept, each once,
      in increasing order. */
  lemma {:induction false} KeptIndicesSpec(n: nat, rm: seq<nat>)
    ensures var k := KeptIndices(n, rm);
      && (forall a :: 0 <= a < |k| ==> k[a] !in rm)
      && (forall a, b :: 0 <= a < b < |k| ==> k[a] < k[b])
      && (forall i :: 0 <= i < n && i !in rm ==> i in k)
    decreases n
  {
    if n > 0 {
      KeptIndicesSpec(n - 1, rm);
    }
  }

  /** The indices whose flag is set, in increasing order. */
  function Where(flags: seq<bool>): (r: seq<nat>)
    ensures forall a :: 0 <= a < |r| ==> r[a] < |flags|
    decreases |flags|
  {
    if flags == [] then []
    else Where(flags[..|flags| - 1]) + (if flags[|flags| - 1] then [|flags| - 1] else [])
  }

  /** Every listed index has its flag set. */
  lemma {:induction false} WhereFlagged(flags: seq<bool>)
    ensures forall a :: 0 <= a < |Where(flags)| ==> flags[Where(flags)[a]]
    decreases |flags|
  {
    if flags != [] {
      var n := |flags| - 1;
      var p := flags[..n];
      WhereFlagged(p);
      var r0, r := Where(p), Where(flags);
      assert r == r0 + (if flags[n] then [n] else []);
      forall a | 0 <= a < |r0|
        ensures flags[r[a]]
      {
        assert r[a] == r0[a] && p[r0[a]] == flags[r0[a]];
      }
    }
  }

  /** The listed indices are strictly increasing. */
  lemma {:induction false} WhereIncreasing(flags: seq<bool>)
    ensures forall a, b :: 0 <= a < b < |Where(flags)| ==> Where(flags)[a] < Where(flags)[b]
    decreases |flags|
  {
    if flags != [] {
      var n := |flags| - 1;
      var p := flags[..n];
      WhereIncreasing(p);
      var r0, r := Where(p), Where(flags);
      assert r == r0 + (if flags[n] then [n] else []);
      forall a, b | 0 <= a < b < |r|
        ensures r[a] < r[b]
      {
        if b == |r0| {
          assert r[a] == r0[a] && r0[a] < n;
        } else {
          assert r[a] == r0[a] && r[b] == r0[b];
        }
      }
    }
  }

  /** Every index whose flag is set is listed. */
  lemma {:induction false} WhereComplete(flags: seq<bool>)
    ensures forall i :: 0 <= i < |flags| && flags[i] ==> i in Where(flags)
    decreases |flags|
  {
    if flags != [] {
      var n := |flags| - 1;
      var p := flags[..n];
      WhereComplete(p);
      var r0, r := Where(p), Where(flags);
      assert r == r0 + (if flags[n] then [n] else []);
      forall i | 0 <= i < n && flags[i]
        ensures i in r
      {
        assert p[i] == flags[i];
        var a :| 0 <= a < |r0| && r0[a] == i;
        assert r[a] == i;
      }
    }
  }

  /** `Where` lists exactly the set flags, each once, in increasing order. */
  lemma {:induction false} WhereSpec(flags: seq<bool>)
    ensures forall a :: 0 <= a < |Where(flags)| ==> flags[Where(flags)[a]]
    ensures forall a, b :: 0 <= a < b < |Where(flags)| ==> Where(flags)[a] < Where(flags)[b]
    ensures forall i :: 0 <= i < |flags| && flags[i] ==> i in Where(flags)
  {
    WhereFlagged(flags);
    WhereIncreasing(flags);
    WhereComplete(flags);
  }

  /** The list comprehension of `remove_indices`. */
  function FilterIndices<T>(s: seq<T>, rm: seq<nat>): (r: seq<T>)
    ensures |r| <= |s|
    decreases |s|
  {
    if |s| == 0 then []
    else FilterIndices(s[..|s| - 1], rm) + (if |s| - 1 in rm then [] else [s[|s| - 1]])
  }

  /** The filtered field holds exactly the elements at the kept indices, in
      their original order. */
  lemma {:induction false} FilterIndicesSpec<T>(s: seq<T>, rm: seq<nat>)
    ensures |FilterIndices(s, rm)| == |KeptIndices(|s|, rm)|
    ensures forall k :: 0 <= k < |FilterIndices(s, rm)| ==>
              FilterIndices(s, rm)[k] == s[KeptIndices(|s|, rm)[k]]
    decreases |s|
  {
    if |s| > 0 {
      var n := |s|;
      var p := s[..n - 1];
      FilterIndicesSpec(p, rm);
      assert |p| == n - 1;
      var f, k := FilterIndices(p, rm), KeptIndices(n - 1, rm);
      var fs, ks := FilterIndices(s, rm), KeptIndices(n, rm);
      if n - 1 in rm {
        assert fs == f && ks == k;
      } else {
        assert fs == f + [s[n - 1]] && ks == k + [n - 1];
      }
      forall j | 0 <= j < |fs|
        ensures fs[j] == s[ks[j]]
      {
        if j < |f| {
          assert fs[j] == f[j] == p[k[j]] && ks[j] == k[j];
        }
      }
    }
  }

  /** Two fields of equal length filtered by the same list stay parallel:
      the k-th survivor of each comes from the same original index. */
  lemma {:induction false} FilterKeepsParallel<T, U>(s: seq<T>, t: seq<U>, rm: seq<nat>)
    requires |s| == |t|
    ensures |FilterIndices(s, rm)| == |FilterIndices(t, rm)|
    ensures forall k :: 0 <= k < |FilterIndices(s, rm)| ==>
              exists i :: 0 <= i < |s| && i !in rm &&
                FilterIndices(s, rm)[k] == s[i] && FilterIndices(t, rm)[k] == t[i]
  {
    FilterIndicesSpec(s, rm);
    FilterIndicesSpec(t, rm);
    KeptIndicesSpec(|s|, rm);
    var kept := KeptIndices(|s|, rm);
    forall k | 0 <= k < |FilterIndices(s, rm)|
      ensures exists i :: 0 <= i < |s| && i !in rm &&
                FilterIndices(s, rm)[k] == s[i] && FilterIndices(t, rm)[k] == t[i]
    {
      var i := kept[k];
      assert FilterIndices(s, rm)[k] == s[i] && FilterIndices(t, rm)[k] == t[i];
    }
  }

  /** Nothing listed in `rm` below the length: the field is unchanged. */
  lemma {:induction false} FilterNothing<T>(s: seq<T>, rm: seq<nat>)
    requires forall i :: 0 <= i < |s| ==> i !in rm
    ensures FilterIndices(s, rm) == s
    decreases |s|
  {
    if |s| > 0 {
      FilterNothing(s[..|s| - 1], rm);
      assert s[..|s| - 1] + [s[|s| - 1]] == s;
    }
  }
}
