/** What several modules need. */
module Common {
  datatype Option<+T> = None | Some(value: T)

  type byte = b: int | 0 <= b < 0x100

  datatype ProtocolVersion = Mqtt31 | Mqtt311 | Mqtt5

  /** The error codes of the client library that its modelled functions return.  `SendFailed` is
    whatever a failed send returned, `Handler` what the handler of a packet returned. */
  datatype Rc =
    | Success
    | NoConn
    | SendFailed
    | Protocol
    | Malformed
    | NotFound
    | Inval
    | ConnRefused
    | PayloadSize
    | ConnLost
    | SystemError
    | Tls
    | Handler(code: int)

  function Min(a: int, b: int): int {
    if a <= b then a else b
  }
}
