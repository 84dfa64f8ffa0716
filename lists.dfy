// Facts about Python lists used by the merge and the driver: the entries are
// distinct references, and removing entries keeps the survivors in order.
module Lists {

  /** No reference occurs twice in the list. */
  ghost predicate Distinct<T>(s: seq<T>)
    decreases |s|
  {
    s == [] || (s[0] !in s[1..] && Distinct(s[1..]))
  }

  /** A list without repeats holds different references at different places. */
  lemma {:induction false} DistinctIndices<T>(s: seq<T>)
    requires Distinct(s)
    ensures forall i, j :: 0 <= i < j < |s| ==> s[i] != s[j]
    decreases |s|
  {
    if s != [] {
      DistinctIndices(s[1..]);
      forall i, j | 0 <= i < j < |s| ensures s[i] != s[j] {
        if i == 0 {
          assert s[j] == s[1..][j - 1];
        } else {
          assert s[i] == s[1..][i - 1] && s[j] == s[1..][j - 1];
        }
      }
    }
  }

  /** Different references at different places make a list without repeats. */
  lemma {:induction false} IndicesDistinct<T>(s: seq<T>)
    requires forall i, j :: 0 <= i < j < |s| ==> s[i] != s[j]
    ensures Distinct(s)
    decreases |s|
  {
    if s != [] {
      forall i, j | 0 <= i < j < |s[1..]| ensures s[1..][i] != s[1..][j] {
        assert s[1..][i] == s[i + 1] && s[1..][j] == s[j + 1];
      }
      IndicesDistinct(s[1..]);
      forall k | 0 <= k < |s[1..]| ensures s[1..][k] != s[0] {
        assert s[1..][k] == s[k + 1];
      }
    }
  }

  /** Dropping the last entry of a list without repeats leaves one without it. */
  lemma DistinctInit<T>(s: seq<T>)
    requires Distinct(s) && s != []
    ensures Distinct(s[..|s| - 1]) && s[|s| - 1] !in s[..|s| - 1]
  {
    DistinctIndices(s);
    var init := s[..|s| - 1];
    forall i, j | 0 <= i < j < |init| ensures init[i] != init[j] {
      assert init[i] == s[i] && init[j] == s[j];
    }
    IndicesDistinct(init);
  }

  /** Appending a reference not yet listed keeps the list free of repeats. */
  lemma DistinctAppend<T>(s: seq<T>, x: T)
    requires Distinct(s) && x !in s
    ensures Distinct(s + [x])
  {
    DistinctIndices(s);
    var t := s + [x];
    forall i, j | 0 <= i < j < |t| ensures t[i] != t[j] {
      if j == |s| {
        assert t[i] == s[i];
      } else {
        assert t[i] == s[i] && t[j] == s[j];
      }
    }
    IndicesDistinct(t);
  }

  /** `ys` is `xs` with some entries removed, the rest kept in their order. */
  ghost predicate IsSubseq<T>(ys: seq<T>, xs: seq<T>)
    decreases |xs|
  {
    ys == [] ||
    (xs != [] && (IsSubseq(ys, xs[1..]) || (ys[0] == xs[0] && IsSubseq(ys[1..], xs[1..]))))
  }

  /** The prefix one longer is the prefix plus the next entry. */
  lemma PrefixExtend<T>(xs: seq<T>, i: nat)
    requires i < |xs|
    ensures xs[..i + 1] == xs[..i] + [xs[i]]
  {
  }

  /** The entries from index i on; none when the list is shorter. */
  function From<T>(s: seq<T>, i: nat): (r: seq<T>)
    ensures |r| == if i <= |s| then |s| - i else 0
    ensures forall k :: 0 <= k < |r| ==> r[k] == s[i + k]
  {
    if i <= |s| then s[i..] else []
  }

  /** A common prefix keeps a subsequence a subsequence. */
  lemma {:induction false} SubseqPrepend<T>(a: seq<T>, c: seq<T>, d: seq<T>)
    requires IsSubseq(c, d)
    ensures IsSubseq(a + c, a + d)
    decreases |a|
  {
    if a == [] {
      assert a + c == c && a + d == d;
    } else {
      SubseqPrepend(a[1..], c, d);
      assert (a + c)[1..] == a[1..] + c;
      assert (a + d)[1..] == a[1..] + d;
      assert (a + c)[0] == (a + d)[0];
    }
  }

  /** Past index k, a subsequence only holds entries from past index k of the original. */
  lemma {:induction false} SubseqFrom<T>(ys: seq<T>, xs: seq<T>, k: nat)
    requires IsSubseq(ys, xs) && k <= |xs|
    ensures IsSubseq(From(ys, k), xs[k..])
    decreases |xs|
  {
    if k == 0 {
      assert From(ys, 0) == ys && xs[0..] == xs;
    } else if ys != [] {
      assert xs[1..][k - 1..] == xs[k..];
      if IsSubseq(ys, xs[1..]) {
        SubseqFrom(ys, xs[1..], k - 1);
        var shorter := From(ys, k - 1);
        if shorter != [] {
          SubseqRemove(shorter, 0);
          assert shorter[..0] + shorter[1..] == From(ys, k);
          SubseqTrans(From(ys, k), shorter, xs[k..]);
        }
      } else {
        SubseqFrom(ys[1..], xs[1..], k - 1);
        assert From(ys[1..], k - 1) == From(ys, k);
      }
    }
  }

  /**
   * One visit of a by-index walk over a list that only loses entries: if
   * the visited entries followed by the unvisited slots from i on form a
   * subsequence of xs, so do they after visiting slot i and moving on to
   * slot i + 1 of the shrunk list.
   */
  lemma VisitOrder<T>(prior: seq<T>, before: seq<T>, after: seq<T>, i: nat, xs: seq<T>)
    requires i < |before| && IsSubseq(prior + before[i..], xs) && IsSubseq(after, before)
    ensures IsSubseq(prior + [before[i]] + From(after, i + 1), xs)
  {
    SubseqFrom(after, before, i + 1);
    SubseqPrepend(prior + [before[i]], From(after, i + 1), before[i + 1..]);
    assert prior + [before[i]] + before[i + 1..] == prior + before[i..];
    SubseqTrans(prior + [before[i]] + From(after, i + 1), prior + before[i..], xs);
  }

  /**
   * When the visited entries followed by the rest are in order in a list
   * without repeats, the visited entries have no repeats, come from that
   * list, and none of the rest is among them.
   */
  lemma OrderFacts<T>(done: seq<T>, rest: seq<T>, xs: seq<T>)
    requires IsSubseq(done + rest, xs) && Distinct(xs)
    ensures Distinct(done) && forall x :: x in done ==> x in xs
    ensures forall k :: 0 <= k < |rest| ==> rest[k] !in done
  {
    SubseqDistinct(done + rest, xs);
    SubseqFacts(done + rest, xs);
    var all := done + rest;
    DistinctIndices(all);
    assert forall j :: 0 <= j < |done| ==> done[j] == all[j];
    assert forall k :: 0 <= k < |rest| ==> rest[k] == all[|done| + k];
    IndicesDistinct(done);
  }

  /** A prefix of a subsequence is a subsequence. */
  lemma SubseqPrefix<T>(a: seq<T>, b: seq<T>, xs: seq<T>)
    requires IsSubseq(a + b, xs)
    ensures IsSubseq(a, xs)
  {
    SubseqPrepend(a, [], b);
    assert a + [] == a;
    SubseqTrans(a, a + b, xs);
  }

  lemma {:induction false} SubseqRefl<T>(xs: seq<T>)
    ensures IsSubseq(xs, xs)
    decreases |xs|
  {
    if xs != [] {
      SubseqRefl(xs[1..]);
    }
  }

  /** Dropping the entry at index i, as `list.remove` does, keeps a subsequence. */
  lemma {:induction false} SubseqRemove<T>(xs: seq<T>, i: nat)
    requires i < |xs|
    ensures IsSubseq(xs[..i] + xs[i + 1..], xs)
    decreases i
  {
    if i == 0 {
      assert xs[..0] + xs[1..] == xs[1..];
      SubseqRefl(xs[1..]);
    } else {
      var ys := xs[..i] + xs[i + 1..];
      SubseqRemove(xs[1..], i - 1);
      assert ys[1..] == xs[1..][..i - 1] + xs[1..][i..];
    }
  }

  /** Removing the entry at index i keeps every other entry. */
  lemma RemoveKeepsOthers<T>(xs: seq<T>, i: nat)
    requires i < |xs|
    ensures forall k :: 0 <= k < |xs| && k != i ==> xs[k] in xs[..i] + xs[i + 1..]
  {
    var ys := xs[..i] + xs[i + 1..];
    forall k | 0 <= k < |xs| && k != i
      ensures xs[k] in ys
    {
      if k < i { assert ys[k] == xs[k]; } else { assert ys[k - 1] == xs[k]; }
    }
  }

  lemma {:induction false} SubseqTrans<T>(zs: seq<T>, ys: seq<T>, xs: seq<T>)
    requires IsSubseq(zs, ys) && IsSubseq(ys, xs)
    ensures IsSubseq(zs, xs)
    decreases |xs|
  {
    if zs != [] {
      assert xs != [];
      if IsSubseq(ys, xs[1..]) {
        SubseqTrans(zs, ys, xs[1..]);
      } else {
        assert ys != [] && ys[0] == xs[0] && IsSubseq(ys[1..], xs[1..]);
        if IsSubseq(zs, ys[1..]) {
          SubseqTrans(zs, ys[1..], xs[1..]);
        } else {
          SubseqTrans(zs[1..], ys[1..], xs[1..]);
        }
      }
    }
  }

  /** A subsequence is never longer, has only entries of the original, and is
      the original itself when it is as long. */
  lemma {:induction false} SubseqFacts<T>(ys: seq<T>, xs: seq<T>)
    requires IsSubseq(ys, xs)
    ensures |ys| <= |xs|
    ensures forall y :: y in ys ==> y in xs
    ensures |ys| == |xs| ==> ys == xs
    decreases |xs|
  {
    if ys != [] {
      if IsSubseq(ys, xs[1..]) {
        SubseqFacts(ys, xs[1..]);
      } else {
        SubseqFacts(ys[1..], xs[1..]);
        assert ys == [ys[0]] + ys[1..];
        assert xs == [xs[0]] + xs[1..];
      }
    }
  }

  lemma {:induction false} SubseqDistinct<T>(ys: seq<T>, xs: seq<T>)
    requires IsSubseq(ys, xs) && Distinct(xs)
    ensures Distinct(ys)
    decreases |xs|
  {
    if ys != [] {
      if IsSubseq(ys, xs[1..]) {
        SubseqDistinct(ys, xs[1..]);
      } else {
        SubseqDistinct(ys[1..], xs[1..]);
        SubseqFacts(ys[1..], xs[1..]);
        forall j | 0 < j < |ys| ensures ys[0] != ys[j] {
          assert ys[j] == ys[1..][j - 1];
          assert ys[j] in xs[1..];
        }
      }
    }
  }
}
