/** The two java.util.ArrayList operations the world relies on, as functions on
    sequences: positional insertion (`add(index, element)`) and bulk removal
    (`removeAll`), plus the reversal used to describe insertion order. */
module Lists {

  /** `list.add(k, x)`: x lands at position k and every later element moves
      one place to the right. */
  function Insert<T>(s: seq<T>, k: nat, x: T): (r: seq<T>)
    requires k <= |s|
    ensures |r| == |s| + 1 && r[k] == x
    ensures r[..k] == s[..k] && r[k + 1..] == s[k..]
  {
    s[..k] + [x] + s[k..]
  }

  /** An insertion keeps every element: it adds x and nothing else. */
  lemma InsertContents<T>(s: seq<T>, k: nat, x: T)
    requires k <= |s|
    ensures multiset(Insert(s, k, x)) == multiset(s) + multiset{x}
  {
    assert s == s[..k] + s[k..];
  }

  /** `list.contains(x)`: a linear search from the front, which finds x
      exactly when x is an element. */
  function Contains<T(==)>(s: seq<T>, x: T): (b: bool)
    ensures b <==> x in s
  {
    s != [] && (s[0] == x || Contains(s[1..], x))
  }

  /** `list.removeAll(r)`: drops every element that occurs in r and keeps the
      others in order. */
  function RemoveAll<T(==,!new)>(s: seq<T>, r: seq<T>): (t: seq<T>)
    ensures |t| <= |s|
    ensures forall y :: y in t <==> y in s && y !in r
  {
    if s == [] then []
    else
      var rest := RemoveAll(s[1..], r);
      if s[0] in r then rest else [s[0]] + rest
  }

  /** Every occurrence of every element of r is dropped; the other elements
      keep their multiplicity. */
  lemma {:induction false} RemoveAllCounts<T(!new)>(s: seq<T>, r: seq<T>, x: T)
    ensures multiset(RemoveAll(s, r))[x] == if x in r then 0 else multiset(s)[x]
  {
    if s != [] {
      RemoveAllCounts(s[1..], r, x);
      assert s == [s[0]] + s[1..];
    }
  }

  /** Removal works element by element, so it distributes over concatenation:
      this is what makes removeAll order-preserving. */
  lemma {:induction false} RemoveAllAppend<T(!new)>(a: seq<T>, b: seq<T>, r: seq<T>)
    ensures RemoveAll(a + b, r) == RemoveAll(a, r) + RemoveAll(b, r)
  {
    if a == [] {
      assert a + b == b;
    } else {
      assert (a + b)[0] == a[0];
      assert (a + b)[1..] == a[1..] + b;
      RemoveAllAppend(a[1..], b, r);
    }
  }

  /** Removing nothing leaves the list as it was. */
  lemma {:induction false} RemoveAllNothing<T(!new)>(s: seq<T>)
    ensures RemoveAll(s, []) == s
  {
    if s != [] {
      RemoveAllNothing(s[1..]);
    }
  }

  /** Removing the same elements a second time changes nothing. */
  lemma {:induction false} RemoveAllIdempotent<T(!new)>(s: seq<T>, r: seq<T>)
    ensures RemoveAll(RemoveAll(s, r), r) == RemoveAll(s, r)
  {
    if s != [] {
      RemoveAllIdempotent(s[1..], r);
    }
  }

  function Reversed<T>(s: seq<T>): (r: seq<T>)
    ensures |r| == |s|
  {
    if s == [] then [] else Reversed(s[1..]) + [s[0]]
  }

  /** Reversing a sequence extended at the end puts the new element first. */
  lemma {:induction false} ReversedSnoc<T>(s: seq<T>, x: T)
    ensures Reversed(s + [x]) == [x] + Reversed(s)
  {
    if s == [] {
      assert [x] + [] == [x];
    } else {
      assert (s + [x])[1..] == s[1..] + [x];
      ReversedSnoc(s[1..], x);
    }
  }

  /** One step of a loop that inserts y when `taken` holds, while a second
      list records the inserted elements: if the list held the elements of b
      and of m before, it holds the elements of b and of the new record after. */
  lemma InsertCounted<T>(s: seq<T>, s': seq<T>, m: seq<T>, m': seq<T>, b: multiset<T>,
                         k: nat, y: T, taken: bool)
    requires k <= |s| && multiset(s) == b + multiset(m)
    requires s' == (if taken then Insert(s, k, y) else s)
    requires m' == (if taken then m + [y] else m)
    ensures multiset(s') == b + multiset(m')
  {
    if taken {
      InsertContents(s, k, y);
      assert multiset(m + [y]) == multiset(m) + multiset{y};
    }
  }

  /** Inserting right after a prefix a puts the new element between a and the
      rest. */
  lemma InsertAfterPrefix<T>(a: seq<T>, s: seq<T>, y: T)
    ensures Insert(a + s, |a|, y) == a + [y] + s
  {
    assert (a + s)[..|a|] == a;
    assert (a + s)[|a|..] == s;
  }

  /** Inserting right after a prefix a, in front of a reversed middle part,
      extends the reversal of the middle part by the new element. */
  lemma InsertReversed<T>(a: seq<T>, m: seq<T>, t: seq<T>, y: T)
    ensures Insert(a + Reversed(m) + t, |a|, y) == a + Reversed(m + [y]) + t
  {
    var r := Reversed(m);
    Regroup(a, [], r, t);
    InsertAfterPrefix(a, r + t, y);
    ReversedSnoc(m, y);
    Regroup(a, [y], r, t);
  }

  /** Concatenation is associative, in the grouping the insertion lemmas need. */
  lemma Regroup<T>(a: seq<T>, b: seq<T>, c: seq<T>, d: seq<T>)
    ensures a + b + (c + d) == a + (b + c) + d
  {
  }

  /** Inserting in front of the last element extends the middle part at its
      end. */
  lemma InsertBeforeLast<T>(a: seq<T>, m: seq<T>, z: T, y: T)
    ensures Insert(a + m + [z], |a + m|, y) == a + (m + [y]) + [z]
  {
    InsertAfterPrefix(a + m, [z], y);
  }

  /** An insertion at a position in lo..|s| - 1 leaves the first lo elements
      and the last element where they were. */
  lemma InsertInterior<T>(s: seq<T>, k: nat, x: T, lo: nat)
    requires lo <= k < |s|
    ensures Insert(s, k, x)[..lo] == s[..lo]
    ensures Insert(s, k, x)[|s|] == s[|s| - 1]
  {
    assert Insert(s, k, x)[..lo] == (s[..k] + [x])[..lo];
  }
}
