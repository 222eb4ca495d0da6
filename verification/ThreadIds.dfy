/** Threads are numbers; there is always one more of them. */
module ThreadIds {
  ghost function Bound(s: set<nat>): (b: nat)
    ensures forall x :: x in s ==> x < b
  {
    if s == {} then 0
    else
      var x :| x in s;
      var b := Bound(s - {x});
      assert forall y :: y in s ==> y == x || y in s - {x};
      if b <= x then x + 1 else b
  }
}
