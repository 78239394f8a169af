/**
 The contents of a circular buffer, shared by the three bounded queues.
 */
module Ring {

  /** The slot `k` places after `get`. */
  function Slot(size: nat, get: nat, k: nat): (s: nat)
    requires get < size && k <= size
    ensures s < size
  {
    if get + k < size then get + k else get + k - size
  }

  /** `++i == size` and back to zero. */
  function Succ(size: nat, i: nat): (j: nat)
    requires i < size
    ensures j < size
  {
    if i + 1 == size then 0 else i + 1
  }

  /** The `n` items from `get` on, oldest first. */
  function Contents<T>(buf: seq<T>, get: nat, n: nat): (q: seq<T>)
    requires get < |buf| && n <= |buf|
    ensures |q| == n
  {
    seq(n, k requires 0 <= k < n => buf[Slot(|buf|, get, k)])
  }

  /** An item stored behind the last one. */
  lemma Put<T>(buf: seq<T>, get: nat, n: nat, x: T)
    requires get < |buf| && n < |buf|
    ensures Contents(buf[Slot(|buf|, get, n) := x], get, n + 1) == Contents(buf, get, n) + [x]
    ensures Slot(|buf|, get, n + 1) == Succ(|buf|, Slot(|buf|, get, n))
  {}

  /** The oldest item leaves. */
  lemma Get<T>(buf: seq<T>, get: nat, n: nat)
    requires get < |buf| && 0 < n <= |buf|
    ensures Contents(buf, get, n)[0] == buf[get]
    ensures Contents(buf, Succ(|buf|, get), n - 1) == Contents(buf, get, n)[1..]
    ensures Slot(|buf|, Succ(|buf|, get), n - 1) == Slot(|buf|, get, n)
  {}

  /** The number of items between the two indices of a ring that is never full. */
  function Distance(size: nat, get: nat, put: nat): (n: nat)
    requires get < size && put < size
    ensures n < size && Slot(size, get, n) == put
  {
    if get <= put then put - get else put + size - get
  }

  /** The slot for the next item holds no live one. */
  lemma FreeSlot(size: nat, get: nat, n: nat, k: nat)
    requires get < size && n < size && k < n
    ensures Slot(size, get, k) != Slot(size, get, n)
  {}
}
