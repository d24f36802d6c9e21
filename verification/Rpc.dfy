/** What a stub call looks like on the connection, for both ends. */
module Rpc {
  import opened Outcomes
  import opened Bytes

  datatype Request = Request(id: nat, depId: string, methodIdx: nat, args: seq<byte>)

  datatype Body = OkBody(result: seq<byte>) | ErrBody(message: string)

  /** The parent's answer to a call of a dependency it holds no owner for. */
  function UnknownDep(depId: string): Body {
    ErrBody("HostedRpc dispatch: unknown dep id '" + depId + "' in parent owner-cell map")
  }

  function BodyOf(reply: Result<seq<byte>, string>): Body {
    match reply
    case Ok(result) => OkBody(result)
    case Err(message) => ErrBody(message)
  }
}
