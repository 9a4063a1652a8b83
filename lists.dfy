/** The two operations of the .NET generic list that a study group applies to its
    member list: `Add` (append at the end) and `Remove` (delete the first element
    equal to the argument, if there is one). Equality is the element type's own
    `==`, which stands for the default equality comparer of the element type. */
module Lists {

  /** Reference definition of `Remove`: the sequence without the first element
      equal to `x`; unchanged when there is none. */
  function RemoveFirst<T(==)>(s: seq<T>, x: T): (r: seq<T>)
    ensures x !in s ==> r == s
    ensures x in s ==> |r| == |s| - 1
  {
    if s == [] then []
    else if s[0] == x then s[1..]
    else [s[0]] + RemoveFirst(s[1..], x)
  }

  /** `Remove` takes away one copy of `x` when there is one, and nothing else:
      the result holds the same members, counted with multiplicity. */
  lemma {:induction false} RemoveFirstMultiset<T>(s: seq<T>, x: T)
    ensures multiset(RemoveFirst(s, x)) == multiset(s) - multiset{x}
  {
    if s != [] {
      assert s == [s[0]] + s[1..];
      if s[0] != x {
        RemoveFirstMultiset(s[1..], x);
      }
    }
  }

  /** `i` is the position of the first element of `s` equal to `x`. */
  ghost predicate IsFirstIndex<T>(s: seq<T>, x: T, i: int)
  {
    0 <= i < |s| && s[i] == x && x !in s[..i]
  }

  /** Removing a present element cuts out exactly its first occurrence and keeps
      every other element, in order. */
  lemma {:induction false} RemoveFirstAt<T>(s: seq<T>, x: T, i: int)
    requires IsFirstIndex(s, x, i)
    ensures RemoveFirst(s, x) == s[..i] + s[i + 1..]
  {
    if i > 0 {
      assert s[0] in s[..i];
      assert s[1..][..i - 1] == s[1..i];
      RemoveFirstAt(s[1..], x, i - 1);
      assert s[1..][i..] == s[i + 1..];
      assert [s[0]] + s[1..i] == s[..i];
    }
  }

  /** `Add` followed by `Remove` of an element that was absent restores the
      original sequence. */
  lemma {:induction false} AddThenRemove<T>(s: seq<T>, x: T)
    requires x !in s
    ensures RemoveFirst(s + [x], x) == s
  {
    if s != [] {
      assert (s + [x])[1..] == s[1..] + [x];
      AddThenRemove(s[1..], x);
    }
  }

  /** When the element was already present, `Remove` takes away the earlier
      copy and the appended one stays at the end; the sequence comes back as it
      was only when every element after its first `x` is also `x`. */
  lemma {:induction false} AddThenRemovePresent<T>(s: seq<T>, x: T)
    requires x in s
    ensures RemoveFirst(s + [x], x) == RemoveFirst(s, x) + [x]
  {
    if s[0] != x {
      assert (s + [x])[1..] == s[1..] + [x];
      AddThenRemovePresent(s[1..], x);
    } else {
      assert (s + [x])[1..] == s[1..] + [x];
    }
  }

  /** The linear search `Remove` performs: the first index of `x` in `s`, or -1
      when `x` does not occur. */
  method IndexOf<T(==)>(s: seq<T>, x: T) returns (i: int)
    ensures -1 <= i < |s|
    ensures i == -1 <==> x !in s
    ensures i != -1 ==> IsFirstIndex(s, x, i)
  {
    var k := 0;
    while k < |s|
      invariant 0 <= k <= |s|
      invariant x !in s[..k]
    {
      if s[k] == x {
        return k;
      }
      assert s[..k + 1] == s[..k] + [s[k]];
      k := k + 1;
    }
    assert s[..k] == s;
    return -1;
  }
}
