/** The library errors of the protocol layer and the codes a peer sees instead. */
module ProtocolErrors {
  import opened Bytes

  datatype ProtocolError =
    | NotPaired
    | Revoked
    | RequiresReauth
    | VersionMismatch
    | MalformedFrame
    | NonceReplay
    | Unsupported
    | Internal

  datatype Error =
    | Encoding
    | Decoding
    | OversizedFrame(len: nat, max: nat)
    | UndersizedFrame(len: nat, min: nat)
    | BadVersion(got: uint8, expected: uint8)
    | TrailingBytes(trailing: nat)
    | LengthOverflow
  {
    function ToWireCode(): ProtocolError {
      match this
      case BadVersion(_, _) => VersionMismatch
      case _ => MalformedFrame
    }
  }

  /** A peer learns of a wrong version as such, and of everything else only that the frame was malformed. */
  lemma WireCodes(e: Error)
    ensures e.ToWireCode() == VersionMismatch <==> e.BadVersion?
    ensures e.ToWireCode() == MalformedFrame <==> !e.BadVersion?
  {
  }
}
