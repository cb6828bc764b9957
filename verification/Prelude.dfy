/** Small things several modules share. */
module Prelude {

  datatype Option<+T> = None | Some(value: T)

  /** The group everyone is in. */
  const ANONYMOUS_ID := 0

  /** Some element of a set: the arbitrary iteration order of a hash table. */
  method Choose<T(==)>(s: set<T>) returns (x: T)
    requires s != {}
    ensures x in s
  {
    x :| x in s;
  }

  lemma SomeElement<T>(s: set<T>) returns (x: T)
    requires s != {}
    ensures x in s
  {
    x :| x in s;
  }

  lemma Assoc<T>(a: seq<T>, b: seq<T>, c: seq<T>)
    ensures (a + b) + c == a + (b + c)
  {
  }

  /** Positions in increasing order, and a later one. */
  lemma OneMoreAt(at: seq<nat>, last: nat)
    requires forall m | 0 <= m < |at| :: at[m] < last
    requires forall m, n | 0 <= m < n < |at| :: at[m] < at[n]
    ensures forall m, n | 0 <= m < n <= |at| :: (at + [last])[m] < (at + [last])[n]
    ensures forall i: nat :: i in at + [last] <==> (i in at || i == last)
  {
  }
}
