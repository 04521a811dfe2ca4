/**
 * The `connection.update` handler of index.js. The handler keeps no state of its own:
 * one update record becomes an ordered list of events pushed to every dashboard client
 * (`qr`, `log`, `connected`) and a decision whether to start a fresh session after a
 * fixed delay.
 *
 * The QR image encoder is outside the model: `encode(qr)` is what it returned for the
 * payload, an image data URL or the message of the error it threw.
 */
module Connection {
  import opened Wrappers

  /** `update.connection`. */
  datatype Phase = Connecting | Open | Close

  /** `update.lastDisconnect.error`: its message, its `output.statusCode`, and the text
      `JSON.stringify` gives for it. */
  datatype DisconnectError = DisconnectError(message: string, statusCode: Option<int>, json: string)

  /** One `connection.update` record; a missing `lastDisconnect` and a `lastDisconnect`
      without an error are both `None` in `error`. */
  datatype Update = Update(qr: Option<string>, connection: Option<Phase>, error: Option<DisconnectError>)

  /** What the QR image encoder did with the payload. */
  datatype QrImage = DataUrl(url: string) | EncodeFailed(message: string)

  /** One `io.emit` to every dashboard client. */
  datatype Emit = Qr(dataUrl: string) | Log(line: string) | Connected(up: bool)

  /** The events of one update, in emission order, and the delay after which a new
      session is started, if one is. */
  datatype Reaction = Reaction(emits: seq<Emit>, restartAfterMs: Option<nat>)

  /** `DisconnectReason.loggedOut` of the protocol library. */
  const LoggedOut: int := 401
  const ReconnectDelayMs: nat := 2000

  const QrReadyLog: string := "QR code generated. Scan it using WhatsApp -> Linked devices -> Link a device."
  const QrFailedPrefix: string := "Failed to generate QR image: "
  const OpenLog: string := "WhatsApp connected."
  const ClosedPrefix: string := "Connection closed: "
  const LoggedOutLog: string := "Logged out. Remove auth_info directory and re-scan."
  const ReconnectingLog: string := "Reconnecting in 2 seconds..."

  /** `reason?.message || JSON.stringify(reason)`, where `JSON.stringify(undefined)`
      concatenates as `undefined`. */
  function CloseReason(error: Option<DisconnectError>): (reason: string)
    ensures error.None? ==> reason == "undefined"
    ensures error.Some? && error.value.message != "" ==> reason == error.value.message
    ensures error.Some? && error.value.message == "" ==> reason == error.value.json
  {
    match error
    case None => "undefined"
    case Some(e) => if e.message != "" then e.message else e.json
  }

  /** `lastDisconnect?.error?.output?.statusCode === DisconnectReason.loggedOut`. */
  predicate IsLoggedOut(error: Option<DisconnectError>) {
    error.Some? && error.value.statusCode == Some(LoggedOut)
  }

  /** A failed-encoding line is never one of the lines that announce the reconnect
      decision. */
  lemma FailureLineIsNoCloseLine(msg: string)
    ensures QrFailedPrefix + msg != ReconnectingLog && QrFailedPrefix + msg != LoggedOutLog
  {
    // At index 27 the failure prefix holds `:` and the logout line `o`; the reconnect
    // line (28 characters) is shorter than the failure prefix (29). Low indices of long
    // literals are not unfolded by the verifier, so a late index is compared instead.
    assert (QrFailedPrefix + msg)[27] == ':';
    assert LoggedOutLog[27] == 'o';
  }

  /** The QR step: a data URL and a hint, or only a failure line. */
  function QrEmits(u: Update, encode: string -> QrImage): (r: seq<Emit>)
    ensures forall e :: e in r && e.Qr? ==> Truthy(u.qr) && encode(u.qr.value) == DataUrl(e.dataUrl)
    ensures Truthy(u.qr) && encode(u.qr.value).DataUrl? ==> r != [] && r[0] == Qr(encode(u.qr.value).url)
    ensures forall e :: e in r ==> !e.Connected?
    ensures Log(ReconnectingLog) !in r && Log(LoggedOutLog) !in r
    ensures !Truthy(u.qr) ==> r == []
    ensures Truthy(u.qr) && encode(u.qr.value).DataUrl? ==> r == [Qr(encode(u.qr.value).url), Log(QrReadyLog)]
    ensures Truthy(u.qr) && encode(u.qr.value).EncodeFailed? ==>
      r == [Log(QrFailedPrefix + encode(u.qr.value).message)]
  {
    if Truthy(u.qr) then
      match encode(u.qr.value)
      case DataUrl(url) => [Qr(url), Log(QrReadyLog)]
      case EncodeFailed(msg) => FailureLineIsNoCloseLine(msg); [Log(QrFailedPrefix + msg)]
    else []
  }

  /** The `open` step. */
  function OpenEmits(u: Update): (r: seq<Emit>)
    ensures forall e :: e in r ==> e == Connected(true) || e == Log(OpenLog)
    ensures Connected(true) in r <==> u.connection == Some(Open)
    ensures u.connection == Some(Open) ==> r == [Connected(true), Log(OpenLog)]
    ensures u.connection != Some(Open) ==> r == []
  {
    if u.connection == Some(Open) then [Connected(true), Log(OpenLog)] else []
  }

  /** The `close` step, whose last line announces the reconnect decision. */
  function CloseEmits(u: Update): (r: seq<Emit>)
    ensures forall e :: e in r ==> !e.Qr? && e != Connected(true)
    ensures Connected(false) in r <==> u.connection == Some(Close)
    ensures u.connection != Some(Close) ==> r == []
    ensures u.connection == Some(Close) ==> |r| == 3
    ensures u.connection == Some(Close) ==>
      r == [Connected(false), Log(ClosedPrefix + CloseReason(u.error)),
            Log(if IsLoggedOut(u.error) then LoggedOutLog else ReconnectingLog)]
  {
    if u.connection == Some(Close) then
      [Connected(false), Log(ClosedPrefix + CloseReason(u.error))]
      + (if IsLoggedOut(u.error) then [Log(LoggedOutLog)] else [Log(ReconnectingLog)])
    else []
  }

  /** The whole handler: QR handling, then `open`, then `close`. A new session is
      started after 2000 ms exactly when the connection closed for any reason other
      than a logout, a missing status code included. */
  function OnConnectionUpdate(u: Update, encode: string -> QrImage): (r: Reaction)
    ensures r.restartAfterMs.Some? <==> u.connection == Some(Close) && !IsLoggedOut(u.error)
    ensures r.restartAfterMs.Some? ==> r.restartAfterMs.value == ReconnectDelayMs
    ensures Connected(true) in r.emits <==> u.connection == Some(Open)
    ensures Connected(false) in r.emits <==> u.connection == Some(Close)
    ensures forall e :: e in r.emits && e.Qr? ==>
      Truthy(u.qr) && encode(u.qr.value) == DataUrl(e.dataUrl)
    ensures Truthy(u.qr) && encode(u.qr.value).DataUrl? ==> r.emits != [] && r.emits[0] == Qr(encode(u.qr.value).url)
    ensures r.emits == QrEmits(u, encode) + OpenEmits(u) + CloseEmits(u)
  {
    var q, o, c := QrEmits(u, encode), OpenEmits(u), CloseEmits(u);
    Reaction(q + o + c, if u.connection == Some(Close) && !IsLoggedOut(u.error) then Some(ReconnectDelayMs) else None)
  }

  /** A QR image always reaches the dashboard before any change of the connection
      status. */
  lemma QrBeforeStatus(u: Update, encode: string -> QrImage)
    ensures var emits := OnConnectionUpdate(u, encode).emits;
      forall i, j :: 0 <= i < |emits| && 0 <= j < |emits| && emits[i].Qr? && emits[j].Connected? ==> i < j
  {
  }

  /** A closure ends with the status change, the reason, and the line announcing
      whether a new session follows. */
  lemma CloseAnnouncedLast(u: Update, encode: string -> QrImage)
    requires u.connection == Some(Close)
    ensures var emits := OnConnectionUpdate(u, encode).emits;
      var n := |emits|;
      n >= 3 && emits[n - 3] == Connected(false) && emits[n - 2] == Log(ClosedPrefix + CloseReason(u.error))
      && emits[n - 1] == Log(if IsLoggedOut(u.error) then LoggedOutLog else ReconnectingLog)
  {
  }

  /** The reconnect decision is announced only when the connection closed. */
  lemma NoAnnouncementUnlessClosed(u: Update, encode: string -> QrImage)
    requires u.connection != Some(Close)
    ensures var emits := OnConnectionUpdate(u, encode).emits;
      Log(ReconnectingLog) !in emits && Log(LoggedOutLog) !in emits
  {
  }

  /** The number of new sessions a run of updates schedules. */
  function RestartCount(us: seq<Update>, encode: string -> QrImage): nat {
    if us == [] then 0
    else
      var last := if OnConnectionUpdate(us[|us| - 1], encode).restartAfterMs.Some? then 1 else 0;
      RestartCount(us[..|us| - 1], encode) + last
  }

  /** The number of closures in a run of updates that were not logouts. */
  function RecoverableClosures(us: seq<Update>): nat {
    if us == [] then 0
    else
      var u := us[|us| - 1];
      var last := if u.connection == Some(Close) && !IsLoggedOut(u.error) then 1 else 0;
      RecoverableClosures(us[..|us| - 1]) + last
  }

  /** Every closure that is not a logout schedules exactly one restart, and nothing else
      schedules any. */
  lemma {:induction false} OneRestartPerClosure(us: seq<Update>, encode: string -> QrImage)
    ensures RestartCount(us, encode) == RecoverableClosures(us)
    decreases |us|
  {
    if us != [] {
      OneRestartPerClosure(us[..|us| - 1], encode);
    }
  }
}

/** Session start-up in index.js: only the choice of protocol version is modelled. */
module Startup {

  /** What asking the protocol library for its latest version gave. */
  datatype VersionFetch = Fetched(version: seq<nat>) | FetchFailed

  /** The known-good version used when the lookup fails. */
  const FallbackVersion: seq<nat> := [2, 2307, 9]

  /** The version the session is created with: the fetched one, or the fallback when
      the lookup rejects. */
  function NegotiatedVersion(fetch: VersionFetch): (version: seq<nat>)
    ensures fetch.FetchFailed? ==> version == [2, 2307, 9]
    ensures fetch.Fetched? ==> version == fetch.version
  {
    match fetch
    case Fetched(v) => v
    case FetchFailed => FallbackVersion
  }
}
