/** Values shared by every component: optional results, digests, and first-match search. */
module Prelude {

  datatype Option<+T> = None | Some(value: T)

  /** One day in milliseconds, the unit of all times. */
  const DAY_MS := 86_400_000

  datatype Result<+T, +E> = Ok(value: T) | Err(error: E)

  /** A SHA-256 digest. Being a constructor it is injective: no two texts in use collide. */
  datatype Digest = Sha256(text: string)

  /** `r` is the first `n` characters of `s`, or all of them if there are fewer. */
  predicate IsHead(r: string, s: string, n: nat) {
    r <= s && |r| == if |s| < n then |s| else n
  }

  /** The position of the first element satisfying `p`: a `SELECT ... LIMIT 1` in row order. */
  function FirstWhere<T>(s: seq<T>, p: T -> bool): (r: Option<nat>)
    ensures r.Some? ==> r.value < |s| && p(s[r.value]) && forall k | 0 <= k < r.value :: !p(s[k])
    ensures r.None? ==> forall k | 0 <= k < |s| :: !p(s[k])
  {
    if s == [] then None
    else if p(s[0]) then Some(0)
    else
      var rest := FirstWhere(s[1..], p);
      assert forall k | 1 <= k < |s| :: s[k] == s[1..][k - 1];
      if rest.Some? then Some(rest.value + 1) else None
  }

  /** The elements satisfying `p`, in order: a `SELECT ... WHERE` on a table kept in id order. */
  function Filter<T>(s: seq<T>, p: T -> bool): (r: seq<T>)
    ensures forall x | x in r :: x in s && p(x)
    ensures forall x | x in s && p(x) :: x in r
    ensures |r| <= |s|
  {
    if s == [] then []
    else
      var rest := Filter(s[1..], p);
      if p(s[0]) then [s[0]] + rest else rest
  }
}
