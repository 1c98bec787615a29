/** The Express backend of server.js: POST /metrics appends the request body
    to the in-memory array `realTimeMetrics` and then drops the oldest entry
    once more than 100 are held; GET /metrics returns the array. */
module MetricsServer {

  /** How many metrics the buffer keeps. */
  const Capacity: nat := 100

  /** The last `n` elements of `s` (all of `s` when it is shorter). */
  function LastN<T>(s: seq<T>, n: nat): (r: seq<T>)
    ensures |r| == if |s| <= n then |s| else n
  {
    if |s| <= n then s else s[|s| - n..]
  }

  /** The buffer after `push(data)` and the conditional `shift()`. */
  function Pushed<T>(buf: seq<T>, x: T): (r: seq<T>)
    ensures |buf| <= Capacity ==> |r| <= Capacity
    ensures |r| > 0 && r[|r| - 1] == x
    ensures |buf| < Capacity ==> r == buf + [x]
    ensures |buf| >= Capacity ==> r == buf[1..] + [x]
  {
    var grown := buf + [x];
    if |grown| > Capacity then grown[1..] else grown
  }

  /** The buffer after posting every element of `xs`, in order. */
  function PostAll<T>(buf: seq<T>, xs: seq<T>): seq<T> {
    if xs == [] then buf else Pushed(PostAll(buf, xs[..|xs| - 1]), xs[|xs| - 1])
  }

  /** From a buffer within capacity, one POST leaves exactly the newest 100
      of the old contents followed by the new item. */
  lemma PushedKeepsNewest<T>(buf: seq<T>, x: T)
    requires |buf| <= Capacity
    ensures Pushed(buf, x) == LastN(buf + [x], Capacity)
  {
  }

  /** Keeping the newest `n` before or after appending one more item comes to
      the same. */
  lemma LastNSnoc<T>(s: seq<T>, x: T, n: nat)
    ensures LastN(LastN(s, n) + [x], n) == LastN(s + [x], n)
  {
    if |s| > n {
      assert LastN(s, n) + [x] == (s + [x])[|s| - n..];
    }
  }

  /** However many POSTs arrive, the buffer holds exactly the most recent 100
      items posted (counting the ones it started with), in arrival order. */
  lemma {:induction false} PostAllKeepsNewest<T>(buf: seq<T>, xs: seq<T>)
    requires |buf| <= Capacity
    ensures PostAll(buf, xs) == LastN(buf + xs, Capacity)
    decreases |xs|
  {
    if xs == [] {
      assert buf + xs == buf;
    } else {
      var xs', x := xs[..|xs| - 1], xs[|xs| - 1];
      PostAllKeepsNewest(buf, xs');
      PushedKeepsNewest(LastN(buf + xs', Capacity), x);
      LastNSnoc(buf + xs', x, Capacity);
      assert buf + xs == (buf + xs') + [x];
    }
  }

  /** The server's state: the module-level array `realTimeMetrics`. */
  class Server<T> {
    var realTimeMetrics: seq<T>

    /** The bound the handlers maintain. */
    ghost predicate Valid()
      reads this
    {
      |realTimeMetrics| <= Capacity
    }

    constructor ()
      ensures Valid() && realTimeMetrics == []
    {
      realTimeMetrics := [];
    }

    /** POST /metrics: always answers `{status: "success"}`. */
    method PostMetrics(data: T) returns (status: string)
      modifies this
      ensures realTimeMetrics == Pushed(old(realTimeMetrics), data)
      ensures old(Valid()) ==> Valid()
      ensures status == "success"
    {
      realTimeMetrics := realTimeMetrics + [data];
      if |realTimeMetrics| > Capacity {
        realTimeMetrics := realTimeMetrics[1..];
      }
      status := "success";
    }

    /** GET /metrics: the buffer, oldest first, left as it is. */
    method GetMetrics() returns (metrics: seq<T>)
      ensures metrics == realTimeMetrics
    {
      metrics := realTimeMetrics;
    }
  }
}
