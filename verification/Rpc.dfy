/** RPC framing: a request is an id, a method name and a payload; a response is an id,
    a success byte, a payload and an error text. */
module Rpc {
  import opened Codec

  datatype Request = Request(id: nat, name: Bytes, payload: Bytes)

  datatype Response = Response(id: nat, ok: bool, payload: Bytes, error: Bytes)

  /** A message in the network: `to` is a node id or a node's response port. */
  datatype Packet = Packet(from: nat, to: nat, bytes: Bytes)

  const PORT_BASE: nat := 0x4000_0000

  function ResponsePort(node: nat): nat
  {
    (node + PORT_BASE) % U32
  }

  function SerializeRequest(r: Request): Bytes
  {
    BigEndian(8, r.id) + LengthPrefixed(r.name) + LengthPrefixed(r.payload)
  }

  function ParseRequest(s: Bytes): Option<Request>
  {
    match TakeNat(8, s)
    case Fail => None
    case Got(id, s1) =>
      match TakeBytes(s1)
      case Fail => None
      case Got(name, s2) =>
        match TakeBytes(s2)
        case Fail => None
        case Got(payload, s3) => if s3 == [] then Some(Request(id, name, payload)) else None
  }

  function SerializeResponse(r: Response): Bytes
  {
    BigEndian(8, r.id) + BigEndian(1, if r.ok then 1 else 0) + LengthPrefixed(r.payload) + LengthPrefixed(r.error)
  }

  function ParseResponse(s: Bytes): Option<Response>
  {
    match TakeNat(8, s)
    case Fail => None
    case Got(id, s1) =>
      match TakeNat(1, s1)
      case Fail => None
      case Got(ok, s2) =>
        match TakeBytes(s2)
        case Fail => None
        case Got(payload, s3) =>
          match TakeBytes(s3)
          case Fail => None
          case Got(error, s4) => if s4 == [] then Some(Response(id, ok != 0, payload, error)) else None
  }

  lemma RequestRoundTrip(r: Request)
    requires r.id < U64 && |r.name| < U32 && |r.payload| < U32
    ensures ParseRequest(SerializeRequest(r)) == Some(r)
  {
    hide BigEndian, LengthPrefixed, TakeNat, TakeBytes, Pow256;
    var tail := LengthPrefixed(r.payload) + [];
    Widths();
    NatRoundTrip(8, r.id, LengthPrefixed(r.name) + tail);
    BytesRoundTrip(r.name, tail);
    BytesRoundTrip(r.payload, []);
    assert SerializeRequest(r) == BigEndian(8, r.id) + (LengthPrefixed(r.name) + tail);
  }

  lemma ResponseRoundTrip(r: Response)
    requires r.id < U64 && |r.payload| < U32 && |r.error| < U32
    ensures ParseResponse(SerializeResponse(r)) == Some(r)
  {
    hide BigEndian, LengthPrefixed, TakeNat, TakeBytes, Pow256;
    var ok := if r.ok then 1 else 0;
    var tail := LengthPrefixed(r.error) + [];
    Widths();
    NatRoundTrip(8, r.id, BigEndian(1, ok) + (LengthPrefixed(r.payload) + tail));
    NatRoundTrip(1, ok, LengthPrefixed(r.payload) + tail);
    BytesRoundTrip(r.payload, tail);
    BytesRoundTrip(r.error, []);
    assert SerializeResponse(r) == BigEndian(8, r.id) + (BigEndian(1, ok) + (LengthPrefixed(r.payload) + tail));
  }
}
