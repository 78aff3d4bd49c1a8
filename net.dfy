/** The receive loop that both the client (get_file) and the storage node
    (handle_put) use to read a fixed-size chunk from a socket:

      remaining = size; ptr = buffer;
      while (remaining > 0) { n = recv(sock, ptr, remaining); if (n <= 0) break;
                              ptr += n; remaining -= n; }

    The socket is abstracted as the bytes the peer makes available and the
    way the network segments them: call k of recv returns at most sizes[k]
    bytes, never more than asked for, and 0 once the peer's bytes run out
    (or sizes[k] is 0, a closed connection or an error). */
module Net {
  import opened Strings

  datatype Delivery = Delivery(stream: seq<byte>, sizes: seq<nat>)

  function Min(a: int, b: int): int { if a < b then a else b }

  /** What one recv call returns when want bytes are still wanted and
      left bytes of the peer's stream are still unread. */
  function RecvCount(left: nat, size: nat, want: nat): (n: nat)
    ensures n <= want && n <= left && n <= size
  {
    Min(Min(size, want), left)
  }

  /** How many bytes the loop receives when it wants want bytes, starting
      at byte ptr of the stream and at recv call k. */
  function ReceivedFrom(d: Delivery, ptr: nat, k: nat, want: nat): (n: nat)
    requires ptr <= |d.stream| && k <= |d.sizes|
    ensures n <= want && ptr + n <= |d.stream|
    decreases |d.sizes| - k
  {
    if want == 0 || k == |d.sizes| then 0
    else
      var got := RecvCount(|d.stream| - ptr, d.sizes[k], want);
      if got == 0 then 0 else got + ReceivedFrom(d, ptr + got, k + 1, want - got)
  }

  /** How many bytes the whole loop receives when it wants want bytes. */
  function Received(d: Delivery, want: nat): (n: nat)
    ensures n <= want && n <= |d.stream|
  {
    ReceivedFrom(d, 0, 0, want)
  }

  /** The buffer after the loop: the received prefix over the buffer's
      previous contents. */
  function Fill(buf: seq<byte>, d: Delivery): (r: seq<byte>)
    ensures |r| == |buf|
  {
    var got := Received(d, |buf|);
    d.stream[..got] + buf[got..]
  }

  /** The loop itself, over the buffer it fills. */
  method RecvInto(buf: array<byte>, d: Delivery) returns (got: nat)
    modifies buf
    ensures got == Received(d, buf.Length)
    ensures buf[..] == Fill(old(buf[..]), d)
  {
    var remaining: nat := buf.Length;
    var ptr: nat := 0;
    var k: nat := 0;
    while remaining > 0
      invariant ptr + remaining == buf.Length
      invariant ptr <= |d.stream| && k <= |d.sizes|
      invariant ptr + ReceivedFrom(d, ptr, k, remaining) == Received(d, buf.Length)
      invariant forall t :: 0 <= t < ptr ==> buf[t] == d.stream[t]
      invariant forall t :: ptr <= t < buf.Length ==> buf[t] == old(buf[t])
      decreases remaining
    {
      if k == |d.sizes| {
        break;
      }
      var received := RecvCount(|d.stream| - ptr, d.sizes[k], remaining);
      if received == 0 {
        break;
      }
      forall t | ptr <= t < ptr + received {
        buf[t] := d.stream[t];
      }
      ptr := ptr + received;
      remaining := remaining - received;
      k := k + 1;
    }
    got := ptr;
  }

  /** When every recv call delivers at least one byte and there are enough
      calls, the loop stops only when it has what it wants or the peer's
      bytes are exhausted. */
  lemma {:induction false} FullDelivery(d: Delivery, ptr: nat, k: nat, want: nat)
    requires ptr <= |d.stream| && k <= |d.sizes|
    requires |d.sizes| - k >= want
    requires forall j :: k <= j < |d.sizes| ==> d.sizes[j] >= 1
    ensures ReceivedFrom(d, ptr, k, want) == Min(want, |d.stream| - ptr)
    decreases |d.sizes| - k
  {
    if want > 0 && k < |d.sizes| {
      var got := RecvCount(|d.stream| - ptr, d.sizes[k], want);
      if got > 0 {
        FullDelivery(d, ptr + got, k + 1, want - got);
      }
    }
  }

  /** A delivery that hands over exactly the n bytes wanted. */
  function Exact(data: seq<byte>): (d: Delivery)
    ensures Received(d, |data|) == |data|
  {
    var d := Delivery(data, seq(|data|, _ => 1));
    FullDelivery(d, 0, 0, |data|);
    d
  }

  /** The buffer ends up holding exactly the delivered bytes when the
      delivery covers the whole buffer. */
  lemma FillExact(buf: seq<byte>, data: seq<byte>)
    requires |data| == |buf|
    ensures Fill(buf, Exact(data)) == data
  {
  }
}
