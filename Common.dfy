/**
 * Shared value types and the array operations of the engine containers the
 * plugin relies on: a nullable value, TArray::AddUnique and TArray::Remove.
 */
module Common {

  /** A possibly-null reference or an optional out-parameter. */
  datatype Option<T> = None | Some(value: T)

  /** Identity of a class or an object. */
  type Id = nat

  /** The largest value of a signed 32-bit integer. */
  const Int32Max: int := 0x7FFF_FFFF

  predicate NoDuplicates<T(==,!new)>(s: seq<T>) {
    forall i, j :: 0 <= i < j < |s| ==> s[i] != s[j]
  }

  /** TArray::AddUnique: appends x unless it is already present. */
  function AddUnique<T(==,!new)>(s: seq<T>, x: T): (r: seq<T>)
    ensures x in r
    ensures forall y :: y in r <==> y in s || y == x
    ensures |s| <= |r| <= |s| + 1 && r[..|s|] == s
    ensures x in s ==> r == s
    ensures NoDuplicates(s) ==> NoDuplicates(r)
  {
    if x in s then s else s + [x]
  }

  /** AddUnique of every element of xs, in order. */
  function AddUniqueAll<T(==,!new)>(s: seq<T>, xs: seq<T>): (r: seq<T>)
    decreases |xs|
  {
    if xs == [] then s else AddUniqueAll(AddUnique(s, xs[0]), xs[1..])
  }

  /**
   * AddUniqueAll keeps the old elements in front, adds exactly the elements of
   * xs and introduces no duplicate.
   */
  lemma {:induction false} AddUniqueAllSpec<T(!new)>(s: seq<T>, xs: seq<T>)
    ensures |s| <= |AddUniqueAll(s, xs)| && AddUniqueAll(s, xs)[..|s|] == s
    ensures forall y :: y in AddUniqueAll(s, xs) <==> y in s || y in xs
    ensures NoDuplicates(s) ==> NoDuplicates(AddUniqueAll(s, xs))
    decreases |xs|
  {
    if xs != [] {
      var s' := AddUnique(s, xs[0]);
      AddUniqueAllSpec(s', xs[1..]);
      assert AddUniqueAll(s, xs)[..|s'|] == s';
      assert AddUniqueAll(s, xs)[..|s|] == s'[..|s|];
      forall y ensures y in xs <==> y == xs[0] || y in xs[1..] {
        if y in xs {
          var k :| 0 <= k < |xs| && xs[k] == y;
          if k > 0 { assert xs[1..][k - 1] == y; }
        }
      }
    }
  }

  /** Adding elements that are all already present changes nothing. */
  lemma {:induction false} AddUniqueAllPresent<T(!new)>(s: seq<T>, xs: seq<T>)
    requires forall y :: y in xs ==> y in s
    ensures AddUniqueAll(s, xs) == s
    decreases |xs|
  {
    if xs != [] {
      assert xs[0] in xs;
      forall y | y in xs[1..] ensures y in s { assert y in xs; }
      AddUniqueAllPresent(s, xs[1..]);
    }
  }

  /** Some element of a non-empty set; stands for the next key of an unordered map iteration. */
  method Pick<T>(s: set<T>) returns (x: T)
    requires s != {}
    ensures x in s
  {
    x :| x in s;
  }

  /** The tail of a duplicate-free list is duplicate-free and misses the head. */
  lemma DuplicateFreeTail<T(!new)>(xs: seq<T>)
    requires xs != [] && NoDuplicates(xs)
    ensures NoDuplicates(xs[1..]) && xs[0] !in xs[1..]
    ensures forall y :: y in xs[1..] ==> y in xs
  {
    forall i, j | 0 <= i < j < |xs| - 1 ensures xs[1..][i] != xs[1..][j] {
      assert xs[1..][i] == xs[i + 1] && xs[1..][j] == xs[j + 1];
    }
  }

  /** On a duplicate-free list, AddUniqueAll appends the whole list. */
  lemma {:induction false} AddUniqueAllFresh<T(!new)>(s: seq<T>, xs: seq<T>)
    requires NoDuplicates(xs)
    requires forall y :: y in xs ==> y !in s
    ensures AddUniqueAll(s, xs) == s + xs
    decreases |xs|
  {
    if xs != [] {
      var x, tl := xs[0], xs[1..];
      assert x in xs;
      DuplicateFreeTail(xs);
      assert AddUniqueAll(s, xs) == AddUniqueAll(s + [x], tl);
      AddUniqueAllFresh(s + [x], tl);
      assert s + [x] + tl == s + xs;
    }
  }

  /** Adding one more element at the end of xs is one more AddUnique. */
  lemma {:induction false} AddUniqueAllSnoc<T(!new)>(s: seq<T>, xs: seq<T>, x: T)
    ensures AddUniqueAll(s, xs + [x]) == AddUnique(AddUniqueAll(s, xs), x)
    decreases |xs|
  {
    if xs == [] {
      assert [] + [x] == [x];
      assert [x][1..] == [];
    } else {
      assert (xs + [x])[0] == xs[0] && (xs + [x])[1..] == xs[1..] + [x];
      AddUniqueAllSnoc(AddUnique(s, xs[0]), xs[1..], x);
    }
  }

  /** TArray::Remove: removes every occurrence of x, keeping the others in order. */
  function RemoveAll<T(==,!new)>(s: seq<T>, x: T): (r: seq<T>)
    ensures x !in r
    ensures forall y :: y in r <==> y in s && y != x
    ensures |r| <= |s|
    ensures x !in s ==> r == s
    ensures NoDuplicates(s) ==> NoDuplicates(r)
  {
    if s == [] then []
    else
      var rest := RemoveAll(s[1..], x);
      assert forall y :: y in s <==> y == s[0] || y in s[1..];
      if s[0] == x then rest
      else
        assert NoDuplicates(s) ==> s[0] !in s[1..];
        [s[0]] + rest
  }

  /** Remove of every element of xs, in order. */
  function RemoveEach<T(==,!new)>(s: seq<T>, xs: seq<T>): (r: seq<T>)
    ensures forall y :: y in r <==> y in s && y !in xs
    ensures NoDuplicates(s) ==> NoDuplicates(r)
    decreases |xs|
  {
    if xs == [] then s
    else
      var r := RemoveEach(RemoveAll(s, xs[0]), xs[1..]);
      assert forall y :: y in xs <==> y == xs[0] || y in xs[1..];
      r
  }

  /** Removing one more element at the end of xs is one more Remove. */
  lemma {:induction false} RemoveEachSnoc<T(!new)>(s: seq<T>, xs: seq<T>, x: T)
    ensures RemoveEach(s, xs + [x]) == RemoveAll(RemoveEach(s, xs), x)
    decreases |xs|
  {
    if xs == [] {
      assert [] + [x] == [x];
      assert [x][1..] == [];
    } else {
      assert (xs + [x])[0] == xs[0] && (xs + [x])[1..] == xs[1..] + [x];
      RemoveEachSnoc(RemoveAll(s, xs[0]), xs[1..], x);
    }
  }
}
