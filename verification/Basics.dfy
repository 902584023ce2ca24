/** Names and small datatypes shared by the models of all services. */
module Basics {
  type UserId = string
  type ObjectId = string

  datatype Option<+T> = None | Some(value: T)

  /**
   How one call to a store ends, as its caller sees it. A call that fails may have
   been lost before it took effect (`Dropped`) or after (`Unacked`).
   */
  datatype Reply = Acked | Dropped | Unacked {
    predicate Applied() {
      !Dropped?
    }

    predicate Failed() {
      !Acked?
    }
  }

  /** Sets related by a one-to-one correspondence have the same size. */
  lemma {:induction false} BijectionSize<A, B>(keys: set<A>, f: A -> B, image: set<B>)
    requires forall k | k in keys :: f(k) in image
    requires forall x | x in image :: exists k :: k in keys && f(k) == x
    requires forall a, b | a in keys && b in keys && f(a) == f(b) :: a == b
    ensures |image| == |keys|
  {
    if keys == {} {
      assert image == {};
    } else {
      var k :| k in keys;
      BijectionSize(keys - {k}, f, image - {f(k)});
    }
  }

  lemma SubsetSize<A>(small: set<A>, big: set<A>)
    requires small <= big
    ensures |small| <= |big|
    ensures |small| == |big| ==> small == big
  {
    assert big == small + (big - small);
    assert |big| == |small| + |big - small|;
  }
}
