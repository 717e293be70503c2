/** The application behind a transport, and what becomes of the requests it is given. */
module Application {
  import opened Wrappers
  import opened ByteStrings
  import Handshake

  /** A request that could not be parsed, or one on which the application ran. */
  datatype Handled = Rejected(request: Bytes) | Ran(request: Bytes, outcome: Result<Bytes>)

  /** An application may answer by what it was asked before; it may raise. */
  type App = (seq<Handled>, Handshake.Session, Bytes) -> Result<Bytes>

  /** The bytes are parsed before the application runs on them. */
  function Handle(parses: Bytes -> bool, app: App, before: seq<Handled>, session: Handshake.Session, request: Bytes): Handled {
    if parses(request) then Ran(request, app(before, session, request)) else Rejected(request)
  }
}
