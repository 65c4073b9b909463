/** Order-preserving filtering of sequences: the list comprehensions and the
    remove-while-scanning-a-copy loop of the game all come down to this. */
module Seqs {

  /** The elements of `s` that satisfy `keep`, in their original order. */
  function Filter<T(!new)>(s: seq<T>, keep: T -> bool): (r: seq<T>)
    ensures |r| <= |s|
    ensures forall x :: x in r <==> x in s && keep(x)
    ensures forall i :: 0 <= i < |r| ==> keep(r[i])
    decreases |s|
  {
    if |s| == 0 then []
    else if keep(s[0]) then [s[0]] + Filter(s[1..], keep)
    else Filter(s[1..], keep)
  }

  /** Filtering distributes over concatenation. */
  lemma {:induction false} FilterAppend<T(!new)>(a: seq<T>, b: seq<T>, keep: T -> bool)
    ensures Filter(a + b, keep) == Filter(a, keep) + Filter(b, keep)
    decreases |a|
  {
    if |a| == 0 {
      assert a + b == b;
    } else {
      assert (a + b)[0] == a[0];
      assert (a + b)[1..] == a[1..] + b;
      FilterAppend(a[1..], b, keep);
    }
  }

  /** Extending the input by one element extends the output by that element
      exactly when it is kept. */
  lemma FilterSnoc<T(!new)>(s: seq<T>, x: T, keep: T -> bool)
    ensures Filter(s + [x], keep) == Filter(s, keep) + (if keep(x) then [x] else [])
  {
    FilterAppend(s, [x], keep);
    assert [x][1..] == [];
  }

  /** `idx` picks out `r` from `s` at strictly increasing positions. */
  ghost predicate Embedding<T(!new)>(idx: seq<int>, r: seq<T>, s: seq<T>) {
    && |idx| == |r|
    && (forall j :: 0 <= j < |idx| ==> 0 <= idx[j] < |s| && r[j] == s[idx[j]])
    && (forall j, k :: 0 <= j < k < |idx| ==> idx[j] < idx[k])
  }

  /** The filter keeps the survivors in their relative order: it returns the
      positions it took them from, strictly increasing. */
  lemma {:induction false} FilterKeepsOrder<T(!new)>(s: seq<T>, keep: T -> bool) returns (idx: seq<int>)
    ensures Embedding(idx, Filter(s, keep), s)
    decreases |s|
  {
    if |s| == 0 {
      idx := [];
    } else {
      var tail := FilterKeepsOrder(s[1..], keep);
      idx := EmbeddingCons(s[0], s[1..], Filter(s[1..], keep), tail, keep(s[0]));
      assert s == [s[0]] + s[1..];
    }
  }

  /** An embedding of `r` in `s` gives one of `r`, or of `x` followed by `r`,
      in `x` followed by `s`. */
  lemma EmbeddingCons<T(!new)>(x: T, s: seq<T>, r: seq<T>, tail: seq<int>, taken: bool) returns (idx: seq<int>)
    requires Embedding(tail, r, s)
    ensures Embedding(idx, if taken then [x] + r else r, [x] + s)
  {
    var shifted := seq(|tail|, j requires 0 <= j < |tail| => tail[j] + 1);
    if taken {
      idx := [0] + shifted;
      var r' := [x] + r;
      forall j | 0 <= j < |idx|
        ensures 0 <= idx[j] < |s| + 1 && r'[j] == ([x] + s)[idx[j]]
      {
        if j > 0 {
          assert idx[j] == tail[j - 1] + 1;
          assert r'[j] == r[j - 1];
        }
      }
    } else {
      idx := shifted;
    }
  }

  /** Keys strictly increase along the sequence. */
  ghost predicate Increasing<T(!new)>(s: seq<T>, key: T -> int) {
    forall j, k :: 0 <= j < k < |s| ==> key(s[j]) < key(s[k])
  }

  /** A filter of a sequence with increasing keys still has increasing keys. */
  lemma FilterKeepsIncreasing<T(!new)>(s: seq<T>, keep: T -> bool, key: T -> int)
    requires Increasing(s, key)
    ensures Increasing(Filter(s, keep), key)
  {
    var idx := FilterKeepsOrder(s, keep);
  }

  /** The kept and the dropped elements together account for the whole input. */
  lemma {:induction false} FilterSplitsLength<T(!new)>(s: seq<T>, keep: T -> bool, drop: T -> bool)
    requires forall x :: x in s ==> (drop(x) <==> !keep(x))
    ensures |Filter(s, keep)| + |Filter(s, drop)| == |s|
    decreases |s|
  {
    if |s| > 0 {
      assert forall x :: x in s[1..] ==> x in s;
      FilterSplitsLength(s[1..], keep, drop);
    }
  }

  /** Nothing is removed exactly when every element is kept. */
  lemma {:induction false} FilterIdentityIff<T(!new)>(s: seq<T>, keep: T -> bool)
    ensures Filter(s, keep) == s <==> forall i :: 0 <= i < |s| ==> keep(s[i])
    decreases |s|
  {
    if |s| > 0 {
      FilterIdentityIff(s[1..], keep);
      if forall i :: 0 <= i < |s| ==> keep(s[i]) {
        assert forall i :: 0 <= i < |s[1..]| ==> keep(s[1..][i]) by {
          forall i | 0 <= i < |s[1..]| ensures keep(s[1..][i]) {
            assert s[1..][i] == s[i + 1];
          }
        }
        assert s == [s[0]] + s[1..];
      }
    }
  }
}
