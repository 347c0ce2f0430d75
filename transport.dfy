/** The client's connection: what the peer delivers, read by read, and
    everything the server writes back. A read hands over at most as many
    bytes as the reader's buffer holds; the rest of that delivery waits for
    the next read. */
module Transport {
  import opened Protocol

  /** One delivery of the stream: bytes, or the failure (end of stream
      included) that a read reports. */
  datatype Read = Chunk(data: Bytes) | ReadError

  /** Size of pending input, a measure every read decreases. */
  function Volume(pending: seq<Read>): nat {
    if pending == [] then 0
    else (if pending[0].Chunk? then |pending[0].data| + 1 else 1) + Volume(pending[1..])
  }

  /** The bytes a peer has sent that reads can still deliver: those before
      the first failure. */
  function Stream(pending: seq<Read>): Bytes {
    if pending == [] || pending[0].ReadError? then []
    else pending[0].data + Stream(pending[1..])
  }

  datatype Received = Received(read: Read, rest: seq<Read>)

  /** One read into a buffer of limit bytes. */
  function Receive(pending: seq<Read>, limit: nat): (r: Received)
    requires pending != [] && limit > 0
    ensures Volume(r.rest) < Volume(pending)
    ensures r.read.ReadError? <==> pending[0].ReadError?
    ensures r.read.ReadError? ==> r.rest == pending[1..]
    ensures r.read.Chunk? ==> |r.read.data| <= limit
    ensures r.read.Chunk? ==> Stream(pending) == r.read.data + Stream(r.rest)
    ensures r.read.Chunk? && |r.read.data| < limit ==> r.rest == pending[1..]
  {
    match pending[0]
    case ReadError => Received(ReadError, pending[1..])
    case Chunk(d) =>
      if |d| <= limit then Received(Chunk(d), pending[1..])
      else
        var rest := [Chunk(d[limit..])] + pending[1..];
        assert rest[0] == Chunk(d[limit..]) && rest[1..] == pending[1..];
        assert d == d[..limit] + d[limit..];
        Received(Chunk(d[..limit]), rest)
  }

  /** Receive sees only the head of what is pending. */
  lemma ReceiveAppend(p: seq<Read>, q: seq<Read>, limit: nat)
    requires p != [] && limit > 0
    ensures Receive(p + q, limit) == Received(Receive(p, limit).read, Receive(p, limit).rest + q)
  {
    assert (p + q)[0] == p[0];
    assert (p + q)[1..] == p[1..] + q;
  }

  class Conn {
    var pending: seq<Read>
    var sent: Bytes

    constructor (deliveries: seq<Read>)
      ensures pending == deliveries && sent == []
    {
      pending := deliveries;
      sent := [];
    }

    /** Reads into buf: n bytes of data at its start, or a failure. There
        must be something pending; a real read would wait for it. */
    method Read(buf: array<Byte>) returns (n: nat, failed: bool)
      requires pending != [] && buf.Length > 0
      modifies this, buf
      ensures var r := Receive(old(pending), buf.Length);
        failed == r.read.ReadError? && pending == r.rest &&
        (!failed ==> n <= buf.Length && buf[..n] == r.read.data)
      ensures sent == old(sent)
    {
      var r := Receive(pending, buf.Length);
      pending := r.rest;
      match r.read
      case ReadError =>
        n, failed := 0, true;
      case Chunk(d) =>
        n, failed := |d|, false;
        var i := 0;
        while i < n
          modifies buf
          invariant 0 <= i <= n
          invariant buf[..i] == d[..i]
        {
          buf[i] := d[i];
          i := i + 1;
        }
    }

    method Write(b: Bytes)
      modifies this
      ensures sent == old(sent) + b
      ensures pending == old(pending)
    {
      sent := sent + b;
    }
  }
}
