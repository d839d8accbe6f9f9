/**
  The expiry sweep of a temp folder: every immediate child whose time since its
  last edit is strictly greater than the global 30-day constant is removed. The
  per-rule maximum age is passed in but never consulted.
 */
module Expiry {

  /** 60 * 60 * 24 * 30 seconds: thirty days. */
  const SecondsUntilFileExpiration: int := 60 * 60 * 24 * 30

  /** A child of the swept folder and the seconds elapsed since its last edit. */
  datatype Child = Child(path: string, age: real)

  /** The comparison made for one child; `maxAge` plays no part in it. */
  predicate IsExpired(age: real, maxAge: int): (expired: bool)
    ensures expired <==> age > 2592000.0
  {
    age > SecondsUntilFileExpiration as real
  }

  /** The paths the sweep removes, in the order the folder is iterated. */
  function ExpiredChildren(children: seq<Child>, maxAge: int): (removed: seq<string>)
    ensures |removed| <= |children|
    ensures forall p :: p in removed <==>
      exists i :: 0 <= i < |children| && children[i].path == p
        && IsExpired(children[i].age, maxAge)
  {
    if |children| == 0 then []
    else
      var rest := ExpiredChildren(children[1..], maxAge);
      assert forall i :: 0 <= i < |children| - 1 ==> children[1..][i] == children[i + 1];
      if IsExpired(children[0].age, maxAge) then [children[0].path] + rest else rest
  }

  /** The boundary is strict: exactly thirty days is kept, one second more is removed. */
  lemma ExpiryBoundary(path: string, maxAge: int)
    ensures ExpiredChildren([Child(path, SecondsUntilFileExpiration as real)], maxAge) == []
    ensures ExpiredChildren([Child(path, SecondsUntilFileExpiration as real + 1.0)], maxAge) == [path]
    ensures SecondsUntilFileExpiration == 2592000
  {
  }

  /** What the sweep removes does not depend on the maximum age it is given. */
  lemma {:induction false} ExpiryIgnoresMaxAge(children: seq<Child>, a: int, b: int)
    ensures ExpiredChildren(children, a) == ExpiredChildren(children, b)
  {
    if |children| > 0 {
      ExpiryIgnoresMaxAge(children[1..], a, b);
    }
  }

  /**
    The sweep visits children in order: sweeping two runs of children one after
    the other removes the first run's expired paths, then the second's.
   */
  lemma {:induction false} ExpiredChildrenAppend(a: seq<Child>, b: seq<Child>, maxAge: int)
    ensures ExpiredChildren(a + b, maxAge) == ExpiredChildren(a, maxAge) + ExpiredChildren(b, maxAge)
  {
    if |a| == 0 {
      assert a + b == b;
    } else {
      assert (a + b)[0] == a[0];
      assert (a + b)[1..] == a[1..] + b;
      ExpiredChildrenAppend(a[1..], b, maxAge);
    }
  }

  /** A single child is removed exactly when it is expired. */
  lemma ExpiredSingle(child: Child, maxAge: int)
    ensures ExpiredChildren([child], maxAge) == if IsExpired(child.age, maxAge) then [child.path] else []
  {
  }
}
