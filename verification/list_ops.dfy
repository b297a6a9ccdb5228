/** Sequence operations behind the Python list that holds the failed dates:
    `list.remove(x)` (drop the first occurrence), subsequences and duplicate freedom. */
module ListOps {

  /** Every element occurs at most once. */
  ghost predicate NoDuplicates<T(!new)>(s: seq<T>) {
    forall x :: multiset(s)[x] <= 1
  }

  /** Position of the first occurrence of `x` in `s`. */
  function IndexOf<T(==)>(s: seq<T>, x: T): (i: nat)
    requires x in s
    ensures i < |s| && s[i] == x && x !in s[..i]
  {
    if s[0] == x then 0 else 1 + IndexOf(s[1..], x)
  }

  /** Python's `list.remove(x)`: the first occurrence of `x` is dropped and the rest keeps
      its order; a list without `x` is returned unchanged here (Python raises instead,
      which callers in the model never let happen). */
  function RemoveFirst<T(==)>(s: seq<T>, x: T): (r: seq<T>)
    ensures x !in s ==> r == s
    ensures |r| == if x in s then |s| - 1 else |s|
    ensures multiset(r) == multiset(s) - multiset{x}
  {
    if s == [] then []
    else if s[0] == x then
      assert s == [s[0]] + s[1..];
      s[1..]
    else
      assert s == [s[0]] + s[1..];
      [s[0]] + RemoveFirst(s[1..], x)
  }

  /** `list.remove(x)` takes out exactly the slot of the first `x`: what precedes it stays
      in place and what follows moves one slot to the left. */
  lemma {:induction false} RemoveFirstAt<T>(s: seq<T>, x: T)
    requires x in s
    ensures RemoveFirst(s, x) == s[..IndexOf(s, x)] + s[IndexOf(s, x) + 1..]
    decreases |s|
  {
    if s[0] != x {
      var t := s[1..];
      RemoveFirstAt(t, x);
      var j := IndexOf(t, x);
      assert IndexOf(s, x) == j + 1;
      assert RemoveFirst(s, x) == [s[0]] + RemoveFirst(t, x);
      ConsSkipSlot(s, j);
    }
  }

  /** Skipping slot `j` of the tail is skipping slot `j + 1` of the whole. */
  lemma ConsSkipSlot<T>(s: seq<T>, j: nat)
    requires j + 1 < |s|
    ensures [s[0]] + (s[1..][..j] + s[1..][j + 1..]) == s[..j + 1] + s[j + 2..]
  {
    assert s[..j + 1] == [s[0]] + s[1..][..j];
    assert s[j + 2..] == s[1..][j + 1..];
  }

  /** `a` is `b` with some elements left out, order kept. */
  ghost predicate IsSubseq<T>(a: seq<T>, b: seq<T>)
    decreases |b|
  {
    if a == [] then true
    else if b == [] then false
    else if a[0] == b[0] then IsSubseq(a[1..], b[1..])
    else IsSubseq(a, b[1..])
  }

  lemma {:induction false} SubseqRefl<T>(a: seq<T>)
    ensures IsSubseq(a, a)
    decreases |a|
  {
    if a != [] { SubseqRefl(a[1..]); }
  }

  /** Dropping the head of a subsequence keeps it a subsequence. */
  lemma {:induction false} SubseqDropHead<T>(a: seq<T>, b: seq<T>)
    requires a != [] && IsSubseq(a, b)
    ensures IsSubseq(a[1..], b)
    decreases |b|, 1
  {
    if a[0] != b[0] {
      SubseqDropHead(a, b[1..]);
    }
    SubseqDropFirstOf(a[1..], b);
  }

  /** A subsequence of the tail of `b` is a subsequence of `b`. */
  lemma {:induction false} SubseqDropFirstOf<T>(a: seq<T>, b: seq<T>)
    requires b != [] && IsSubseq(a, b[1..])
    ensures IsSubseq(a, b)
    decreases |b|, 0
  {
    if a != [] && a[0] == b[0] {
      SubseqDropHead(a, b[1..]);
    }
  }

  lemma {:induction false} SubseqTrans<T>(a: seq<T>, b: seq<T>, c: seq<T>)
    requires IsSubseq(a, b) && IsSubseq(b, c)
    ensures IsSubseq(a, c)
    decreases |c|
  {
    if a != [] {
      if b[0] == c[0] {
        if a[0] == b[0] {
          SubseqTrans(a[1..], b[1..], c[1..]);
        } else {
          SubseqTrans(a, b[1..], c[1..]);
        }
      } else {
        SubseqTrans(a, b, c[1..]);
        SubseqDropFirstOf(a, c);
      }
    }
  }

  /** A subsequence holds no element more often than the sequence it is taken from. */
  lemma {:induction false} SubseqMultiset<T>(a: seq<T>, b: seq<T>)
    requires IsSubseq(a, b)
    ensures multiset(a) <= multiset(b)
    decreases |b|
  {
    if a != [] {
      assert b == [b[0]] + b[1..];
      if a[0] == b[0] {
        assert a == [a[0]] + a[1..];
        SubseqMultiset(a[1..], b[1..]);
      } else {
        SubseqMultiset(a, b[1..]);
      }
    }
  }

  lemma SubseqNoDuplicates<T(!new)>(a: seq<T>, b: seq<T>)
    requires IsSubseq(a, b) && NoDuplicates(b)
    ensures NoDuplicates(a)
    ensures forall x :: x in a ==> x in b
  {
    SubseqMultiset(a, b);
    forall x | x in a ensures x in b {
      assert x in multiset(a);
    }
  }

  /** The suffix of `s` from slot `i` on; empty once `i` is past the end. */
  function Drop<T>(s: seq<T>, i: nat): seq<T> {
    if i <= |s| then s[i..] else []
  }

  /** Removing the element at slot `i` (its first occurrence) shifts every later slot one
      to the left, so what now follows slot `i` is what followed slot `i + 1`. */
  lemma RemoveFirstShift<T>(s: seq<T>, i: nat)
    requires i < |s|
    ensures Drop(RemoveFirst(s, s[i]), i + 1) == Drop(s, i + 2)
  {
    IndexOfNotAfter(s, i);
    RemoveFirstAt(s, s[i]);
    DropAfterSlotRemoved(s, i, IndexOf(s, s[i]), RemoveFirst(s, s[i]));
  }

  /** The first occurrence of `s[i]` is at slot `i` or before it. */
  lemma IndexOfNotAfter<T>(s: seq<T>, i: nat)
    requires i < |s|
    ensures IndexOf(s, s[i]) <= i
  {
  }

  lemma DropAfterSlotRemoved<T>(s: seq<T>, i: nat, j: nat, r: seq<T>)
    requires j <= i < |s|
    requires r == s[..j] + s[j + 1..]
    ensures Drop(r, i + 1) == Drop(s, i + 2)
  {
    ShiftAfter(s, j, r);
    if i + 2 <= |s| {
      assert r[i + 1..] == s[i + 2..];
    }
  }

  lemma ShiftAfter<T>(s: seq<T>, j: nat, r: seq<T>)
    requires j < |s| && r == s[..j] + s[j + 1..]
    ensures |r| == |s| - 1
    ensures forall k :: j <= k < |r| ==> r[k] == s[k + 1]
  {
  }

  /** In a list without duplicates, the element at slot `i` occurs nowhere else. */
  lemma NoDuplicatesAt<T(!new)>(s: seq<T>, i: nat)
    requires NoDuplicates(s) && i < |s|
    ensures s[i] !in s[..i] && s[i] !in s[i + 1..]
  {
    assert s == s[..i] + [s[i]] + s[i + 1..];
    assert multiset(s)[s[i]] == multiset(s[..i])[s[i]] + 1 + multiset(s[i + 1..])[s[i]];
  }

  /** Without duplicates, the head does not occur in the tail, which has none either. */
  lemma NoDuplicatesTail<T(!new)>(s: seq<T>)
    requires NoDuplicates(s) && s != []
    ensures s[0] !in s[1..] && NoDuplicates(s[1..])
  {
    assert s == [s[0]] + s[1..];
    assert multiset(s) == multiset{s[0]} + multiset(s[1..]);
    forall x
      ensures multiset(s[1..])[x] <= 1
    {
      assert multiset(s)[x] <= 1;
    }
    assert multiset(s)[s[0]] <= 1;
  }

  /** The part of `r` after its prefix `a + [x]` starts with `x`. */
  lemma SuffixAfterOne<T>(a: seq<T>, x: T, r: seq<T>)
    requires a + [x] <= r
    ensures a <= r && r[|a|..] == [x] + r[|a| + 1..]
  {
    assert r[|a|] == (a + [x])[|a|];
  }

  lemma {:induction false} SubseqLength<T>(a: seq<T>, b: seq<T>)
    requires IsSubseq(a, b)
    ensures |a| <= |b|
    decreases |b|
  {
    if a != [] {
      if a[0] == b[0] {
        SubseqLength(a[1..], b[1..]);
      } else {
        SubseqLength(a, b[1..]);
      }
    }
  }

  lemma AppendOneThenRest<T>(a: seq<T>, s: seq<T>)
    requires s != []
    ensures a + [s[0]] + s[1..] == a + s
  {
    assert s == [s[0]] + s[1..];
  }

  /** `list.remove` keeps the order of what remains. */
  lemma {:induction false} RemoveFirstSubseq<T>(s: seq<T>, x: T)
    ensures IsSubseq(RemoveFirst(s, x), s)
    decreases |s|
  {
    if s == [] {
    } else if s[0] == x {
      SubseqRefl(s[1..]);
      SubseqDropFirstOf(s[1..], s);
    } else {
      RemoveFirstSubseq(s[1..], x);
      assert RemoveFirst(s, x) == [s[0]] + RemoveFirst(s[1..], x);
    }
  }
}
