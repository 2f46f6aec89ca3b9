/** The two record endpoints of the server: `POST /api/records`, which validates a body,
    builds the record and hands it to exactly one storage backend, and
    `GET /api/records/local`, which lists the newest local records. */
module Server {
  import opened Wrappers
  import opened Json
  import opened Validator
  import opened Records
  import opened Store

  /** Where records go, fixed at start-up by the `GOOGLE_APPS_SCRIPT_WEBHOOK` setting. */
  datatype Backend = Webhook(address: string) | LocalFile

  /** A set, non-empty setting selects the webhook; an unset or empty one selects the local file,
      since `if (GOOGLE_APPS_SCRIPT_WEBHOOK)` tests truthiness. */
  function BackendFrom(setting: Option<string>): (b: Backend)
    ensures b.Webhook? <==> setting.Some? && setting.value != ""
    ensures b.Webhook? ==> b.address == setting.value
  {
    if setting.Some? && setting.value != "" then Webhook(setting.value) else LocalFile
  }

  /** What the outbound webhook request came to: a success status, a failure status
      (`!response.ok`), or no response at all (`fetch` rejected). */
  datatype WebhookOutcome = Delivered | Refused | Unreachable

  const WebhookStorage: string := "google-sheets-webhook"
  const LocalStorage: string := "local-file"
  const LocalWarning: string := "GOOGLE_APPS_SCRIPT_WEBHOOK 미설정으로 로컬 저장되었습니다."
  const ServerErrorMessage: string := "서버 오류가 발생했습니다."

  /** The JSON answers of the POST handler: 201 with the storage name, the record and, for the
      local file, a warning; 400 with the validation message; 500 with a generic message. */
  datatype Response =
    | Created(storage: string, record: Record, warning: Option<string>)
    | BadRequest(error: string)
    | ServerError(error: string)

  function Status(r: Response): int {
    match r
    case Created(_, _, _) => 201
    case BadRequest(_) => 400
    case ServerError(_) => 500
  }

  /** The effect of persisting a built record (or the TypeError raised while building it) on
      a store holding `before`, readable or not, whose write succeeds or not: exactly one
      backend receives the record, a failure answers 500, and only a successful local write
      changes the file. */
  predicate Persisted(before: seq<Record>, readable: bool, written: bool, backend: Backend, built: Normalized,
                      webhook: WebhookOutcome, response: Response, forwarded: Option<Record>,
                      after: seq<Record>)
  {
    && (built.NotText? ==>
          response == ServerError(ServerErrorMessage) && forwarded == None && after == before)
    && (built.Built? && backend.Webhook? ==>
          && forwarded == Some(built.record)
          && after == before
          && response == (if webhook == Delivered then Created(WebhookStorage, built.record, None)
                          else ServerError(ServerErrorMessage)))
    && (built.Built? && backend.LocalFile? ==>
          && forwarded == None
          && after == (if readable && written then before + [built.record] else before)
          && response == (if readable && written then Created(LocalStorage, built.record, Some(LocalWarning))
                          else ServerError(ServerErrorMessage)))
  }

  /** The persistence step of `POST /api/records`. */
  method Persist(store: LocalRecordFile, backend: Backend, built: Normalized, webhook: WebhookOutcome, written: bool)
    returns (response: Response, forwarded: Option<Record>)
    modifies store
    ensures store.readable == old(store.readable)
    ensures Persisted(old(store.records), old(store.readable), written, backend, built, webhook, response, forwarded,
                      store.records)
  {
    if built.NotText? {
      return ServerError(ServerErrorMessage), None;
    }
    var record := built.record;
    match backend
    case Webhook(_) =>
      if webhook != Delivered {
        return ServerError(ServerErrorMessage), Some(record);
      }
      return Created(WebhookStorage, record, None), Some(record);
    case LocalFile =>
      var ok := store.Append(record, written);
      if !ok {
        return ServerError(ServerErrorMessage), None;
      }
      return Created(LocalStorage, record, Some(LocalWarning)), None;
  }

  /** Persisting either answers 201 or 500, never 400. */
  lemma PersistedNeverBadRequest(before: seq<Record>, readable: bool, written: bool, backend: Backend, built: Normalized,
                                 webhook: WebhookOutcome, response: Response, forwarded: Option<Record>,
                                 after: seq<Record>)
    requires Persisted(before, readable, written, backend, built, webhook, response, forwarded, after)
    ensures Status(response) == 201 || Status(response) == 500
  {
  }

  /** `POST /api/records` on a parsed body. The random bytes, the timestamp, the webhook's
      answer and whether the local write succeeds are inputs; `forwarded` is the record handed to the webhook, if any. A body that
      fails validation gets 400 with its message and touches no backend; otherwise the record
      built from it is persisted as `Persisted` states. */
  method HandlePost(store: LocalRecordFile, backend: Backend, body: Object, bytes: seq<Byte>,
                    createdAt: string, webhook: WebhookOutcome, written: bool)
    returns (response: Response, forwarded: Option<Record>)
    requires |bytes| == 4
    modifies store
    ensures store.readable == old(store.readable)
    ensures Status(response) == 400 <==> Check(body) != Accepted
    ensures Check(body) != Accepted ==>
      response == BadRequest(Message(Check(body)).value)
      && forwarded == None && store.records == old(store.records)
    ensures Check(body) == Accepted ==>
      Persisted(old(store.records), old(store.readable), written, backend, Normalize(body, bytes, createdAt),
                webhook, response, forwarded, store.records)
  {
    var validationError := ValidateRecord(body);
    if validationError.Some? {
      return BadRequest(validationError.value), None;
    }
    var built := Normalize(body, bytes, createdAt);
    response, forwarded := Persist(store, backend, built, webhook, written);
    PersistedNeverBadRequest(old(store.records), old(store.readable), written, backend, built, webhook,
                             response, forwarded, store.records);
  }

  /** The body of a successful `GET /api/records/local`, or its failure. */
  datatype Listing = LocalRecords(mode: string, records: seq<Record>) | ListingFailed(error: string)

  /** `GET /api/records/local`: `{mode: 'local', records: records.slice(-20).reverse()}`, or a
      500 when the file cannot be read. */
  method HandleGetLocalRecords(store: LocalRecordFile) returns (listing: Listing)
    ensures listing.LocalRecords? <==> store.readable
    ensures listing.LocalRecords? ==>
      && listing.mode == "local"
      && |listing.records| == (if |store.records| < RecentWindow then |store.records| else RecentWindow)
      && forall i :: 0 <= i < |listing.records| ==> listing.records[i] == store.records[|store.records| - 1 - i]
    ensures listing.ListingFailed? ==> listing.error == ServerErrorMessage
  {
    var view := store.ReadRecent();
    if view.None? {
      return ListingFailed(ServerErrorMessage);
    }
    return LocalRecords("local", view.value);
  }
}
