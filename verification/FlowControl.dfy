/** http2/flow.go: an outbound or inbound flow-control window (section 6.9 of RFC 7540). */
module FlowControl {
  import opened Common

  /** The window after adding d, if 32 bits can hold it. */
  function WindowAfter(n: Int32, d: Int32): (r: Option<Int32>)
    ensures r.Some? <==> InInt32(n + d)
    ensures r.Some? ==> r.value == n + d
  {
    var sum := Wrap32(n + d);
    if (sum > d) == (n > 0) then Some(sum) else None
  }

  class Flow {
    /** The number of DATA bytes that may still be sent. */
    var n: Int32
    /** The window shared by all streams of a connection; null for that window itself. */
    const conn: Flow?

    constructor (conn: Flow?)
      ensures n == 0 && this.conn == conn
    {
      n := 0;
      this.conn := conn;
    }

    ghost predicate Valid() {
      conn != null ==> conn != this && conn.conn == null
    }

    function Available(): (a: Int32)
      reads this, conn
      ensures a <= n && (conn != null ==> a <= conn.n)
      ensures a == n || (conn != null && a == conn.n)
    {
      if conn != null && conn.n < n then conn.n else n
    }

    /** Debits both windows; taking more than is available is a panic. */
    method Take(k: Int32)
      requires Valid() && 0 <= k <= Available()
      modifies this, conn
      ensures n == old(n) - k
      ensures conn != null ==> conn.n == old(conn.n) - k
    {
      n := n - k;
      if conn != null {
        conn.n := conn.n - k;
      }
    }

    /** Adds k, positive or negative; the window is unchanged exactly when the sum leaves 32 bits. */
    method Add(k: Int32) returns (ok: bool)
      modifies this`n
      ensures ok <==> InInt32(old(n) + k)
      ensures n == if ok then old(n) + k else old(n)
    {
      var sum := Wrap32(n + k);
      if (sum > k) == (n > 0) {
        n := sum;
        return true;
      }
      return false;
    }
  }
}
