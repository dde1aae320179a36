/** The application-level messages of both channels, after JSON decoding, and the
    rules that turn an inbound message into a registry call. */
module Messages {

  datatype Option<+T> = None | Some(value: T)

  datatype Result<+T, +E> = Success(value: T) | Failure(error: E)

  /** The exceptions a handler can raise. KeyError: a key the handler reads is missing
      from the decoded object. ValueError: `list.remove` of an absent element. */
  datatype Error = KeyError | ValueError

  /** A decoded JSON object `{"message": ..., "data": {"uri": ...}}`; `None` stands for
      a key that is absent. */
  datatype Payload = Payload(message: Option<string>, uri: Option<string>)

  /** A WebSocket frame as the client handler receives it. The bytes of a binary frame
      are never looked at. */
  datatype Frame = Text(payload: Payload) | Binary

  /** The registry call an inbound message leads to. */
  datatype Command = UpdateCmd(uri: string) | WatchCmd(uri: string) | Ignore

  const UPDATE: string := "update"
  const WATCH: string := "watch"
  const INVALIDATE: string := "invalidate"

  /** The message a backend sends when `uri` changed. */
  function UpdateRequest(uri: string): Payload { Payload(Some(UPDATE), Some(uri)) }

  /** The message a client sends to watch `uri`. */
  function WatchRequest(uri: string): Payload { Payload(Some(WATCH), Some(uri)) }

  /** The push `ClientProtocol.invalidate` builds for a resource. */
  function InvalidateMessage(uri: string): (p: Payload)
    ensures p.message == Some(INVALIDATE) && p.uri == Some(uri)
  {
    Payload(Some(INVALIDATE), Some(uri))
  }

  /** `BackendProtocol.data_received` after decoding: read "message" (KeyError if
      absent); on "update" read "data"."uri" (KeyError if absent) and update it;
      anything else is dropped without reading "data". */
  function BackendCommand(p: Payload): (r: Result<Command, Error>)
    ensures r.Success? && r.value.UpdateCmd? ==> p == UpdateRequest(r.value.uri)
    ensures r.Success? ==> !r.value.WatchCmd?
    ensures r.Failure? ==> r.error == KeyError && (p.message.None? || p.message == Some(UPDATE))
  {
    match p.message
    case None => Failure(KeyError)
    case Some(m) =>
      if m == UPDATE then
        match p.uri
        case None => Failure(KeyError)
        case Some(u) => Success(UpdateCmd(u))
      else Success(Ignore)
  }

  /** `ClientProtocol.onMessage` after decoding: binary frames are dropped; a text
      frame is read like a backend message, with "watch" in place of "update". */
  function ClientCommand(f: Frame): (r: Result<Command, Error>)
    ensures r.Success? && r.value.WatchCmd? ==> f == Text(WatchRequest(r.value.uri))
    ensures r.Success? ==> !r.value.UpdateCmd?
    ensures r.Failure? ==> r.error == KeyError && f.Text? && (f.payload.message.None? || f.payload.message == Some(WATCH))
  {
    match f
    case Binary => Success(Ignore)
    case Text(p) =>
      match p.message
      case None => Failure(KeyError)
      case Some(m) =>
        if m == WATCH then
          match p.uri
          case None => Failure(KeyError)
          case Some(u) => Success(WatchCmd(u))
        else Success(Ignore)
  }

  /** A backend message leads to `update(u)` exactly when it says "update" about `u`. */
  lemma BackendUpdateIff(p: Payload, u: string)
    ensures BackendCommand(p) == Success(UpdateCmd(u)) <==> p == UpdateRequest(u)
  {
  }

  /** A backend message that is not "update" is dropped whatever its data says, and
      a KeyError comes exactly from a missing "message" or a missing uri. */
  lemma BackendOtherMessagesIgnored(p: Payload)
    ensures p.message.Some? && p.message.value != UPDATE ==> BackendCommand(p) == Success(Ignore)
    ensures BackendCommand(p).Failure? <==> p.message.None? || (p.message == Some(UPDATE) && p.uri.None?)
  {
  }

  /** A text frame leads to `watch(client, u)` exactly when it says "watch" about `u`;
      a binary frame never does anything. */
  lemma ClientWatchIff(f: Frame, u: string)
    ensures ClientCommand(f) == Success(WatchCmd(u)) <==> f == Text(WatchRequest(u))
    ensures ClientCommand(Binary) == Success(Ignore)
  {
  }

  /** A text frame that is not "watch" is dropped whatever its data says, and a
      KeyError comes exactly from a missing "message" or a missing uri. */
  lemma ClientOtherMessagesIgnored(f: Frame)
    ensures f.Text? && f.payload.message.Some? && f.payload.message.value != WATCH ==>
              ClientCommand(f) == Success(Ignore)
    ensures ClientCommand(f).Failure? <==>
              f.Text? && (f.payload.message.None? || (f.payload.message == Some(WATCH) && f.payload.uri.None?))
  {
  }
}
