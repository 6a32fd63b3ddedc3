/** FreeRTOS stream buffers as the transport uses them: a bounded byte queue with one
    writer and one reader, where a non-blocking send takes the bytes that fit and a
    non-blocking receive takes the bytes that are there. */
module StreamBuffers {

  type byte = x: int | 0 <= x < 256

  function Min(a: nat, b: nat): nat { if a < b then a else b }

  /** A buffer created with `size` bytes holds one byte less. */
  function Capacity(size: nat): nat { if size == 0 then 0 else size - 1 }

  function SpacesAvailable(capacity: nat, q: seq<byte>): nat {
    if |q| <= capacity then capacity - |q| else 0
  }

  /** xStreamBufferSend with timeout 0: the queue afterwards and the byte count returned. */
  function Send(capacity: nat, q: seq<byte>, data: seq<byte>): (r: (seq<byte>, nat))
  {
    var n := Min(|data|, SpacesAvailable(capacity, q));
    (q + data[..n], n)
  }

  /** xStreamBufferReceive with timeout 0: the queue afterwards and the bytes returned. */
  function Receive(q: seq<byte>, max: nat): (r: (seq<byte>, seq<byte>))
    ensures r.1 + r.0 == q && |r.1| == Min(max, |q|)
  {
    var n := Min(max, |q|);
    (q[n..], q[..n])
  }
}
