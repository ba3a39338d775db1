// Notions that all components share.
module Collections {
  datatype Option<+T> = None | Some(value: T)

  ghost predicate NoDup<T>(q: seq<T>) {
    forall i, j :: 0 <= i < j < |q| ==> q[i] != q[j]
  }

  // Taking the head off a queue without repetitions removes exactly that element.
  lemma HeadOff<T(!new)>(q: seq<T>)
    requires NoDup(q) && q != []
    ensures NoDup(q[1..])
    ensures forall x :: x in q[1..] <==> x in q && x != q[0]
  {
    forall x
      ensures x in q[1..] <==> x in q && x != q[0]
    {
      assert q == [q[0]] + q[1..];
    }
  }

  // A queue, with those that have left it and all who have ever joined it: whoever has k others before it leaves
  // after exactly these k.
  lemma InTurn<T>(gone: seq<T>, queue: seq<T>, joined: seq<T>, gone': seq<T>, queue': seq<T>, joined': seq<T>, k: nat)
    requires gone + queue == joined && gone' + queue' == joined' && gone <= gone' && joined <= joined'
    ensures k < |queue| && |gone'| > |gone| + k ==> gone'[|gone|..|gone| + k + 1] == queue[..k + 1]
  {
    if k < |queue| && |gone'| > |gone| + k {
      var n := |gone|;
      forall i | 0 <= i <= k
        ensures gone'[n + i] == queue[i]
      {
        assert gone'[n + i] == joined'[n + i] == joined[n + i];
      }
    }
  }

  lemma JoinQueue<T(!new)>(q: seq<T>, x: T)
    requires NoDup(q) && x !in q
    ensures NoDup(q + [x])
    ensures forall y :: y in q + [x] <==> y in q || y == x
  {
  }
}

// 32-bit integers.
module Integers {
  newtype int32 = x: int | -0x8000_0000 <= x < 0x8000_0000
  newtype uint32 = x: int | 0 <= x < 0x1_0000_0000
}
