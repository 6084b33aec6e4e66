/**
 * `downloadUrl`: one `read` call into a fresh 500-character buffer, returned
 * whole as a string. The HTTP connection is abstract: `NetworkEvent` says how
 * it ended.
 */
module Download {
  import opened Wrappers

  /** The size of the read buffer. */
  const BufferLength: nat := 500

  datatype NetworkEvent =
      /**
       * The connection was made and the single `read` call delivered the first
       * `delivered` characters of the decoded body `body` (a reader may
       * deliver fewer than it has; it never delivers more than the buffer holds).
       */
    | Received(body: string, delivered: nat)
      /** A connect or read timeout: `SocketTimeoutException`. */
    | TimedOut
      /** Any other `IOException`: a malformed URL, an unknown host, a refused connection, a failing `close`. */
    | Failed

  /** How `downloadUrl` ends: a returned string (`None` would be `null`) or a thrown exception. */
  datatype Fetched =
    | Text(body: Option<string>)
    | SocketTimeoutThrown
    | IOExceptionThrown

  function Min(a: nat, b: nat): nat {
    if a <= b then a else b
  }

  /** The number of characters the read call places in the buffer. */
  function ReadCount(body: string, delivered: nat): (n: nat)
    ensures n <= |body| && n <= BufferLength && n <= delivered
    ensures n == |body| || n == BufferLength || n == delivered
  {
    Min(Min(delivered, |body|), BufferLength)
  }

  function Zeros(k: nat): (z: string)
    ensures |z| == k && forall i :: 0 <= i < k ==> z[i] == '\0'
  {
    seq(k, _ => '\0')
  }

  /**
   * The outcome of `downloadUrl`: a returned string is never null, always
   * exactly 500 characters, a prefix of the body of at most 500 characters
   * followed by `'\u0000'` in every unfilled position.
   */
  function Fetch(event: NetworkEvent): (r: Fetched)
    ensures r.Text? <==> event.Received?
    ensures r.SocketTimeoutThrown? <==> event.TimedOut?
    ensures r.Text? ==> r.body.Some? && |r.body.value| == BufferLength
    ensures r.Text? ==>
      var n := ReadCount(event.body, event.delivered);
      r.body.value[..n] == event.body[..n] &&
      forall i :: n <= i < BufferLength ==> r.body.value[i] == '\0'
  {
    match event
    case Received(body, delivered) =>
      var n := ReadCount(body, delivered);
      Text(Some(body[..n] + Zeros(BufferLength - n)))
    case TimedOut => SocketTimeoutThrown
    case Failed => IOExceptionThrown
  }

  method DownloadUrl(event: NetworkEvent) returns (r: Fetched)
    ensures r == Fetch(event)
  {
    match event {
      case Received(body, delivered) =>
        var buffer := new char[BufferLength](_ => '\0');
        var n := ReadCount(body, delivered);
        forall i | 0 <= i < n {
          buffer[i] := body[i];
        }
        assert buffer[..] == body[..n] + Zeros(BufferLength - n);
        r := Text(Some(buffer[..]));
      case TimedOut =>
        r := SocketTimeoutThrown;
      case Failed =>
        r := IOExceptionThrown;
    }
  }
}
