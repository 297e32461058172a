/** Order-preserving sequence operations shared by the editor, the catalog and the project store. */
module Seqs {
  import opened Wrappers


  /** `b` contains the elements of `a` in the same order, possibly with others in between. */
  ghost predicate IsSubseq<T>(a: seq<T>, b: seq<T>)
    decreases |b|
  {
    |a| == 0 || (|b| > 0 && ((a[0] == b[0] && IsSubseq(a[1..], b[1..])) || IsSubseq(a, b[1..])))
  }

  /** JavaScript's `Array.prototype.filter`: the elements satisfying `p`, in their original order. */
  function Filter<T(!new)>(s: seq<T>, p: T -> bool): (r: seq<T>)
    ensures |r| <= |s|
    ensures forall x :: x in r <==> x in s && p(x)
  {
    if |s| == 0 then [] else (if p(s[0]) then [s[0]] else []) + Filter(s[1..], p)
  }

  /** Filtering keeps every copy of a passing element and no copy of a failing one. */
  lemma {:induction false} FilterCounts<T(!new)>(s: seq<T>, p: T -> bool)
    ensures forall x :: multiset(Filter(s, p))[x] == if p(x) then multiset(s)[x] else 0
  {
    if |s| > 0 {
      FilterCounts(s[1..], p);
      assert s == [s[0]] + s[1..];
      assert Filter(s, p) == (if p(s[0]) then [s[0]] else []) + Filter(s[1..], p);
    }
  }

  lemma {:induction false} FilterIsSubseq<T(!new)>(s: seq<T>, p: T -> bool)
    ensures IsSubseq(Filter(s, p), s)
  {
    if |s| > 0 {
      FilterIsSubseq(s[1..], p);
      var rest := Filter(s[1..], p);
      if p(s[0]) {
        assert Filter(s, p) == [s[0]] + rest;
        assert ([s[0]] + rest)[1..] == rest;
      } else {
        assert Filter(s, p) == rest;
        if |rest| > 0 {
          assert IsSubseq(rest, s[1..]);
        }
      }
    }
  }

  /** Filtering keeps everything exactly when every element passes. */
  lemma {:induction false} FilterKeepsAll<T(!new)>(s: seq<T>, p: T -> bool)
    requires forall i :: 0 <= i < |s| ==> p(s[i])
    ensures Filter(s, p) == s
  {
    if |s| > 0 {
      FilterKeepsAll(s[1..], p);
      assert [s[0]] + s[1..] == s;
    }
  }

  /** Two successive filters are one filter by the conjunction `both`. */
  lemma {:induction false} FilterFilter<T(!new)>(s: seq<T>, p: T -> bool, q: T -> bool, both: T -> bool)
    requires forall x :: both(x) == (p(x) && q(x))
    ensures Filter(Filter(s, p), q) == Filter(s, both)
  {
    if |s| > 0 {
      FilterFilter(s[1..], p, q, both);
      var rest := Filter(s[1..], p);
      if p(s[0]) {
        assert Filter(s, p) == [s[0]] + rest;
        assert ([s[0]] + rest)[1..] == rest;
      } else {
        assert Filter(s, p) == rest;
      }
    }
  }

  /** Filters by pointwise-equal predicates agree. */
  lemma {:induction false} FilterExtensional<T(!new)>(s: seq<T>, p: T -> bool, q: T -> bool)
    requires forall x :: p(x) == q(x)
    ensures Filter(s, p) == Filter(s, q)
  {
    if |s| > 0 {
      FilterExtensional(s[1..], p, q);
    }
  }

  /** Filtering distributes over concatenation. */
  lemma {:induction false} FilterAppend<T(!new)>(s: seq<T>, t: seq<T>, p: T -> bool)
    ensures Filter(s + t, p) == Filter(s, p) + Filter(t, p)
  {
    if |s| == 0 {
      assert s + t == t;
    } else {
      FilterAppend(s[1..], t, p);
      assert (s + t)[1..] == s[1..] + t;
      assert (s + t)[0] == s[0];
      var head := if p(s[0]) then [s[0]] else [];
      calc {
        Filter(s + t, p);
        head + Filter(s[1..] + t, p);
        head + (Filter(s[1..], p) + Filter(t, p));
        (head + Filter(s[1..], p)) + Filter(t, p);
      }
    }
  }

  /** Filter and map in one pass: the `Some` results of `f`, in order. */
  function Collect<T, U(!new)>(s: seq<T>, f: T -> Option<U>): (r: seq<U>)
    ensures |r| <= |s|
    ensures forall y :: y in r <==> exists i :: 0 <= i < |s| && f(s[i]) == Some(y)
  {
    if |s| == 0 then []
    else
      var rest := Collect(s[1..], f);
      assert forall i :: 1 <= i < |s| ==> s[i] == s[1..][i - 1];
      match f(s[0])
      case Some(y) => [y] + rest
      case None => rest
  }

  /** Collecting distributes over concatenation, so results keep the order of their sources. */
  lemma {:induction false} CollectAppend<T, U(!new)>(s: seq<T>, t: seq<T>, f: T -> Option<U>)
    ensures Collect(s + t, f) == Collect(s, f) + Collect(t, f)
  {
    if |s| == 0 {
      assert s + t == t;
    } else {
      CollectAppend(s[1..], t, f);
      assert (s + t)[1..] == s[1..] + t;
      assert (s + t)[0] == s[0];
      if f(s[0]).Some? {
        var y := f(s[0]).value;
        assert Collect(s + t, f) == [y] + Collect(s[1..] + t, f);
        AppendAssoc([y], Collect(s[1..], f), Collect(t, f));
      }
    }
  }

  lemma AppendAssoc<T>(a: seq<T>, b: seq<T>, c: seq<T>)
    ensures a + (b + c) == (a + b) + c
  {
  }

  /** What the first `i` sources collect is a prefix of the whole result. */
  lemma CollectPrefix<T, U(!new)>(s: seq<T>, f: T -> Option<U>, i: int)
    requires 0 <= i <= |s|
    ensures Collect(s[..i], f) <= Collect(s, f)
  {
    assert s == s[..i] + s[i..];
    CollectAppend(s[..i], s[i..], f);
  }

  /** The element at `k` lands at some position of the collected table, and no later entry has
      its key. */
  lemma {:induction false} CollectLastFrom<T, K(!new), V(!new)>(all: seq<T>, f: T -> Option<(K, V)>, k: int)
    requires 0 <= k < |all| && f(all[k]).Some?
    requires forall j :: k < j < |all| ==> f(all[j]).None? || f(all[j]).value.0 != f(all[k]).value.0
    ensures var entries := Collect(all, f);
      exists i :: 0 <= i < |entries| && entries[i] == f(all[k]).value && forall j :: i < j < |entries| ==> entries[j].0 != entries[i].0
  {
    var rest := all[1..];
    assert forall i :: 1 <= i < |all| ==> all[i] == rest[i - 1];
    var entries := Collect(all, f);
    if k == 0 {
      CollectFirstIsLast(all, f);
    } else {
      CollectLastFrom(rest, f, k - 1);
      var tail := Collect(rest, f);
      var i :| 0 <= i < |tail| && tail[i] == f(all[k]).value && forall j :: i < j < |tail| ==> tail[j].0 != tail[i].0;
      if f(all[0]).Some? {
        assert entries == [f(all[0]).value] + tail;
        assert entries[i + 1] == tail[i];
      } else {
        assert entries == tail;
      }
    }
  }

  /** When no later source shares the first source's key, the first entry's key is not repeated. */
  lemma CollectFirstIsLast<T, K(!new), V(!new)>(all: seq<T>, f: T -> Option<(K, V)>)
    requires 0 < |all| && f(all[0]).Some?
    requires forall j :: 0 < j < |all| ==> f(all[j]).None? || f(all[j]).value.0 != f(all[0]).value.0
    ensures var entries := Collect(all, f);
      0 < |entries| && entries[0] == f(all[0]).value && forall j :: 0 < j < |entries| ==> entries[j].0 != entries[0].0
  {
    var rest := all[1..];
    var entries := Collect(all, f);
    var tail := Collect(rest, f);
    assert entries == [f(all[0]).value] + tail;
    forall j | 0 < j < |entries| ensures entries[j].0 != entries[0].0 {
      assert entries[j] == tail[j - 1];
      assert entries[j] in tail;
      var m :| 0 <= m < |rest| && f(rest[m]) == Some(entries[j]);
      assert rest[m] == all[m + 1];
    }
  }

  /** A map built by assigning `m[k] = v` for each entry in turn: a later entry for the same key
      overwrites an earlier one. */
  function LastWins<K(!new), V>(entries: seq<(K, V)>): (m: map<K, V>)
    ensures forall k :: k in m <==> exists i :: 0 <= i < |entries| && entries[i].0 == k
  {
    if |entries| == 0 then map[]
    else
      var front := entries[..|entries| - 1];
      assert forall i :: 0 <= i < |front| ==> front[i] == entries[i];
      LastWins(front)[entries[|entries| - 1].0 := entries[|entries| - 1].1]
  }

  /** The keys of a map built from collected entries are exactly the keys the sources give. */
  lemma LastWinsCollectKeys<T, K(!new), V(!new)>(s: seq<T>, f: T -> Option<(K, V)>)
    ensures forall key :: key in LastWins(Collect(s, f)) <==>
      exists k :: 0 <= k < |s| && f(s[k]).Some? && f(s[k]).value.0 == key
  {
    forall key | key in LastWins(Collect(s, f))
      ensures exists k :: 0 <= k < |s| && f(s[k]).Some? && f(s[k]).value.0 == key
    {
      var entries := Collect(s, f);
      var i :| 0 <= i < |entries| && entries[i].0 == key;
      assert entries[i] in entries;
    }
    forall key | exists k :: 0 <= k < |s| && f(s[k]).Some? && f(s[k]).value.0 == key
      ensures key in LastWins(Collect(s, f))
    {
      var k :| 0 <= k < |s| && f(s[k]).Some? && f(s[k]).value.0 == key;
      assert f(s[k]).value in Collect(s, f);
    }
  }

  /** The value stored under a key is that of the last entry carrying it. */
  lemma {:induction false} LastWinsValue<K(!new), V>(entries: seq<(K, V)>, i: int)
    requires 0 <= i < |entries|
    requires forall j :: i < j < |entries| ==> entries[j].0 != entries[i].0
    ensures entries[i].0 in LastWins(entries) && LastWins(entries)[entries[i].0] == entries[i].1
  {
    if i < |entries| - 1 {
      var front := entries[..|entries| - 1];
      LastWinsValue(front, i);
    }
  }

  /** No element occurs twice. */
  ghost predicate Distinct<T>(s: seq<T>) {
    forall i, j :: 0 <= i < j < |s| ==> s[i] != s[j]
  }

  /** Index of the first occurrence of `x` in `s`. */
  function FirstIndex<T(==)>(s: seq<T>, x: T): (i: nat)
    requires x in s
    ensures i < |s| && s[i] == x
    ensures forall j :: 0 <= j < i ==> s[j] != x
  {
    if s[0] == x then 0 else 1 + FirstIndex(s[1..], x)
  }

  /** JavaScript's `new Set(s)` over strings, read back in iteration order: each value once, at its first insertion. */
  function InsertionOrder(s: seq<string>): seq<string>
  {
    if |s| == 0 then []
    else
      var front := InsertionOrder(s[..|s| - 1]);
      if s[|s| - 1] in front then front else front + [s[|s| - 1]]
  }

  /** `InsertionOrder` keeps exactly the values of `s`, each once, ordered by where each first occurs in `s`. */
  lemma {:induction false} InsertionOrderSpec(s: seq<string>)
    ensures forall x :: x in InsertionOrder(s) <==> x in s
    ensures Distinct(InsertionOrder(s))
    ensures forall i, j :: 0 <= i < j < |InsertionOrder(s)| ==>
      FirstIndex(s, InsertionOrder(s)[i]) < FirstIndex(s, InsertionOrder(s)[j])
  {
    if |s| > 0 {
      var init := s[..|s| - 1];
      var last := s[|s| - 1];
      InsertionOrderSpec(init);
      var front := InsertionOrder(init);
      assert s == init + [last];
      forall x | x in init
        ensures FirstIndex(s, x) == FirstIndex(init, x)
      {
        FirstIndexPrefix(init, [last], x);
      }
      if last !in front {
        assert last !in init;
        assert FirstIndex(s, last) == |s| - 1;
        var r := front + [last];
        forall i, j | 0 <= i < j < |r|
          ensures FirstIndex(s, r[i]) < FirstIndex(s, r[j])
        {
          assert r[i] == front[i] && front[i] in front;
          if j < |front| {
            assert r[j] == front[j];
          }
        }
      }
    }
  }

  lemma {:induction false} FirstIndexPrefix<T>(s: seq<T>, t: seq<T>, x: T)
    requires x in s
    ensures x in s + t && FirstIndex(s + t, x) == FirstIndex(s, x)
  {
    if s[0] != x {
      assert (s + t)[1..] == s[1..] + t;
      FirstIndexPrefix(s[1..], t, x);
    }
  }
}
