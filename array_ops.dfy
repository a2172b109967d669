/**
 * The `TArray` operations the capture component relies on, as functions on
 * sequences: `AddUnique` (append unless present), `Remove` (delete every
 * occurrence) and their element-by-element repetitions.
 */
module ArrayOps {

  /** No element occurs twice. */
  predicate NoDup<T(==)>(s: seq<T>) {
    forall i, j :: 0 <= i < j < |s| ==> s[i] != s[j]
  }

  /** In a sequence without duplicates every element occurs exactly once. */
  lemma {:induction false} NoDupOccursOnce<T>(s: seq<T>, x: T)
    requires NoDup(s) && x in s
    ensures multiset(s)[x] == 1
  {
    assert s == [s[0]] + s[1..];
    if s[0] == x {
      assert x !in s[1..] by {
        forall k | 0 <= k < |s[1..]| ensures s[1..][k] != x {
          assert s[1..][k] == s[k + 1];
        }
      }
    } else {
      NoDupOccursOnce(s[1..], x);
    }
  }

  /** `AddUnique`: append `x` unless it is already an element. */
  function AddUnique<T(==, !new)>(s: seq<T>, x: T): (r: seq<T>)
    ensures |s| <= |r| <= |s| + 1 && r[..|s|] == s
    ensures forall y :: y in r <==> y in s || y == x
    ensures multiset(r)[x] == if x in s then multiset(s)[x] else 1
    ensures forall y :: y != x ==> multiset(r)[y] == multiset(s)[y]
    ensures NoDup(s) ==> NoDup(r)
  {
    if x in s then s else s + [x]
  }

  /** `AddUnique` of every element of `xs`, first to last. */
  function AddAllUnique<T(==, !new)>(s: seq<T>, xs: seq<T>): (r: seq<T>)
    ensures |s| <= |r| && r[..|s|] == s
    ensures forall y :: y in r <==> y in s || y in xs
    ensures forall y :: y in xs ==> multiset(r)[y] == if y in s then multiset(s)[y] else 1
    ensures forall y :: y !in xs ==> multiset(r)[y] == multiset(s)[y]
    ensures NoDup(s) ==> NoDup(r)
    decreases |xs|
  {
    if xs == [] then s
    else AddUnique(AddAllUnique(s, xs[..|xs| - 1]), xs[|xs| - 1])
  }

  /** `Remove`: delete every occurrence of `x`, keeping the rest in order. */
  function Remove<T(==, !new)>(s: seq<T>, x: T): (r: seq<T>)
    ensures forall y :: y in r <==> y in s && y != x
    ensures forall y :: y != x ==> multiset(r)[y] == multiset(s)[y]
    ensures |r| == |s| - multiset(s)[x]
    ensures x !in s ==> r == s
  {
    if s == [] then []
    else
      assert s == [s[0]] + s[1..];
      (if s[0] == x then [] else [s[0]]) + Remove(s[1..], x)
  }

  /** `Remove` works element by element, so the kept elements stay in their
      order: it distributes over concatenation. */
  lemma {:induction false} RemoveDistributes<T(!new)>(a: seq<T>, b: seq<T>, x: T)
    ensures Remove(a + b, x) == Remove(a, x) + Remove(b, x)
  {
    if a == [] {
      assert a + b == b;
    } else {
      assert (a + b)[0] == a[0];
      assert (a + b)[1..] == a[1..] + b;
      RemoveDistributes(a[1..], b, x);
    }
  }

  /** `Remove` of every element of `xs`, first to last. */
  function RemoveAll<T(==, !new)>(s: seq<T>, xs: seq<T>): (r: seq<T>)
    ensures forall y :: y in r <==> y in s && y !in xs
    ensures forall y :: y !in xs ==> multiset(r)[y] == multiset(s)[y]
    decreases |xs|
  {
    if xs == [] then s
    else
      assert xs == xs[..|xs| - 1] + [xs[|xs| - 1]];
      Remove(RemoveAll(s, xs[..|xs| - 1]), xs[|xs| - 1])
  }
}
