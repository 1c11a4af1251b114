// Small definitions shared by the models.
module Collections {
  datatype Option<+T> = None | Some(value: T)

  function ToSet<T>(q: seq<T>): set<T> {
    set x | x in q
  }

  ghost predicate Distinct<T>(q: seq<T>) {
    forall i, j | 0 <= i < j < |q| :: q[i] != q[j]
  }

  // The last n elements, or all of a shorter sequence.
  function LastN<T>(q: seq<T>, n: nat): seq<T> {
    if |q| <= n then q else q[|q| - n..]
  }

  // The index of the first x, or the length.
  function IndexOf<T(==)>(q: seq<T>, x: T): (i: nat)
    ensures i <= |q| && x !in q[..i] && (i < |q| ==> q[i] == x)
  {
    if q == [] || q[0] == x then 0
    else
      var i := 1 + IndexOf(q[1..], x);
      assert q[..i] == [q[0]] + q[1..][..i - 1];
      i
  }

  lemma IndexOfFirst<T>(before: seq<T>, x: T, after: seq<T>)
    requires x !in before
    ensures IndexOf(before + [x] + after, x) == |before|
  {
    var q := before + [x] + after;
    var i := IndexOf(q, x);
    assert q[|before|] == x;
    assert forall k | 0 <= k < i :: q[k] == q[..i][k] && q[..i][k] in q[..i];
    assert forall k | 0 <= k < |before| :: q[k] == before[k];
  }

  lemma {:induction false} IndexOfSnoc<T>(q: seq<T>, last: T, x: T)
    ensures IndexOf(q + [last], x) == if x in q then IndexOf(q, x) else if x == last then |q| else |q| + 1
  {
    if q != [] {
      assert (q + [last])[1..] == q[1..] + [last];
      IndexOfSnoc(q[1..], last, x);
    }
  }

  // A saturating difference of instants.
  function Elapsed(now: int, since: int): nat {
    if now >= since then now - since else 0
  }
}
