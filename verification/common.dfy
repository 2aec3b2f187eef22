/** Shared wrappers: an optional value, the wrapped error that every
    storage operation returns (an operation name plus the cause it wraps),
    and small facts about duplicate-free sequences and prefixes. */
module Common {

  datatype Option<+T> = None | Some(value: T)

  /** An error wrapped with the name of the operation that produced it,
      as `utils.WrapIfErr(op, err)` does. */
  datatype Error = Error(op: string, cause: string)

  datatype Result<+T> = Ok(value: T) | Err(cause: string)

  /** No element occurs twice. */
  predicate Distinct<T(==)>(s: seq<T>) {
    forall i, j :: 0 <= i < j < |s| ==> s[i] != s[j]
  }

  /** Dropping the head of a duplicate-free list keeps it duplicate-free,
      and the head does not recur. */
  lemma {:induction false} DistinctTail<T>(s: seq<T>)
    requires |s| > 0 && Distinct(s)
    ensures Distinct(s[1..]) && s[0] !in s[1..]
  {
  }

  /** Two duplicate-free lists with no common element concatenate to a
      duplicate-free list. */
  lemma {:induction false} DistinctAppend<T>(a: seq<T>, b: seq<T>)
    requires Distinct(a) && Distinct(b)
    requires forall i, j :: 0 <= i < |a| && 0 <= j < |b| ==> a[i] != b[j]
    ensures Distinct(a + b)
  {
    var ab := a + b;
    forall i, j | 0 <= i < j < |ab| ensures ab[i] != ab[j] {
      if j < |a| {
        assert ab[i] == a[i] && ab[j] == a[j];
      } else if i < |a| {
        assert ab[i] == a[i] && ab[j] == b[j - |a|];
      } else {
        assert ab[i] == b[i - |a|] && ab[j] == b[j - |a|];
      }
    }
  }

  /** Removing position `k` removes one occurrence of `s[k]`. */
  lemma {:induction false} RemoveAt<T>(s: seq<T>, k: int)
    requires 0 <= k < |s|
    ensures s == s[..k] + [s[k]] + s[k + 1..]
    ensures multiset(s[..k] + s[k + 1..]) == multiset(s) - multiset{s[k]}
  {
    assert s == s[..k] + [s[k]] + s[k + 1..];
    assert multiset(s) == multiset(s[..k]) + multiset{s[k]} + multiset(s[k + 1..]);
  }

  /** Equal sequences that share a prefix have equal remainders. */
  lemma {:induction false} PrefixCancel<T>(p: seq<T>, x: seq<T>, y: seq<T>)
    requires p + x == p + y
    ensures x == y
  {
    assert x == (p + x)[|p|..];
    assert y == (p + y)[|p|..];
  }

  /** A prefix one longer is the prefix plus the next element. */
  lemma {:induction false} PrefixSnoc<T>(s: seq<T>, k: int)
    requires 0 <= k < |s|
    ensures s[..k + 1] == s[..k] + [s[k]]
  {
  }
}
