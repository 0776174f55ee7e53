/** The presence read of src/plug.c. */
module Presence {
  import opened SerialId

  /** The outcome of one register read on the bus. */
  datatype BusRead = Failed | Got(value: nat)

  /** The first read that succeeds among the first n, if any. */
  function FirstAnswer(bus: nat -> BusRead, n: nat): (r: BusRead)
    ensures r.Failed? <==> forall k :: 0 <= k < n ==> bus(k).Failed?
  {
    if n == 0 then Failed
    else if FirstAnswer(bus, n - 1).Got? then FirstAnswer(bus, n - 1)
    else bus(n - 1)
  }

  /** `pm_get_presence`, with the bus outcomes in the order the reads would see them: a failed read
      is retried twice, and the module is present when the first answer is not zero. */
  method GetPresence(socket: SocketType, bus: nat -> BusRead) returns (present: bool, count: nat)
    ensures count <= 3
    ensures socket.Other? ==> !present && count == 0
    ensures !socket.Other? ==> present == (FirstAnswer(bus, 3).Got? && FirstAnswer(bus, 3).value != 0)
    ensures !socket.Other? ==> count > 0 && (bus(count - 1).Got? || count == 3)
    ensures forall k :: 0 <= k < count - 1 ==> bus(k).Failed?
  {
    count := 0;
    if socket.Other? {
      return false, 0;
    }
    var retryCount := 2;
    while true
      invariant 0 <= retryCount && count == 2 - retryCount
      invariant forall k :: 0 <= k < count ==> bus(k).Failed?
      decreases retryCount
    {
      var result := bus(count);
      count := count + 1;
      if result.Failed? {
        if retryCount != 0 {
          retryCount := retryCount - 1;
          continue;
        }
        return false, count;
      }
      FirstAnswerSticks(bus, count, 3);
      return result.value != 0, count;
    }
  }

  lemma {:induction false} FirstAnswerSticks(bus: nat -> BusRead, m: nat, n: nat)
    requires 0 < m <= n && bus(m - 1).Got? && forall k :: 0 <= k < m - 1 ==> bus(k).Failed?
    ensures FirstAnswer(bus, n) == bus(m - 1)
    decreases n
  {
    if m < n { FirstAnswerSticks(bus, m, n - 1); }
  }
}
