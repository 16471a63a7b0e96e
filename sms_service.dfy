/**
 * The phone's background service: a small HTTP server on port 8080 whose
 * `/sms` route lists the newest inbox messages as JSON objects
 * `{address, body, date}`, the route the desktop's Wi-Fi syncer polls. The
 * socket handling, the notification, the wake and Wi-Fi locks and the
 * content provider itself are left out: the inbox query is given as what
 * the cursor holds, and a JSON object is the desktop's view of it.
 */
module SmsService {
  import opened Wrappers
  import Seqs
  import WifiSyncer

  // ---------------------------------------------------------------------------
  // The inbox query

  /** A stored inbox message; a NULL column is None. */
  datatype StoredSms = StoredSms(address: Option<string>, body: Option<string>, date: int)

  /** How many messages one `/sms` request lists. */
  const QueryLimit: nat := 50

  /** The order `date DESC`: a later message before an earlier one. */
  predicate LaterFirst(a: StoredSms, b: StoredSms) {
    a.date > b.date
  }

  lemma LaterFirstIsOrder()
    ensures Seqs.Asymmetric(LaterFirst)
    ensures Seqs.NegativelyTransitive(LaterFirst)
  {
  }

  /**
   * The rows the query `date DESC LIMIT 50` asks the content provider for:
   * the inbox ordered latest first, cut after 50 (equal dates keep their
   * stored order).
   */
  function QueryInbox(inbox: seq<StoredSms>): (r: seq<StoredSms>)
    ensures |r| == if |inbox| < QueryLimit then |inbox| else QueryLimit
    ensures forall i, j :: 0 <= i < j < |r| ==> r[i].date >= r[j].date
    ensures multiset(r) <= multiset(inbox)
  {
    var sorted := Seqs.SortBy(inbox, LaterFirst);
    var n := if |inbox| < QueryLimit then |inbox| else QueryLimit;
    LaterFirstIsOrder();
    Seqs.SortBySorted(inbox, LaterFirst);
    forall i, j | 0 <= i < j < n ensures sorted[i].date >= sorted[j].date {
      Seqs.SortedPairwise(sorted, LaterFirst, i, j);
    }
    assert sorted == sorted[..n] + sorted[n..];
    assert multiset(sorted) == multiset(sorted[..n]) + multiset(sorted[n..]);
    sorted[..n]
  }

  /** Every message the query leaves out is no later than any message it lists. */
  lemma QueryKeepsNewest(inbox: seq<StoredSms>, x: StoredSms, k: nat)
    requires x in multiset(inbox) - multiset(QueryInbox(inbox))
    requires k < |QueryInbox(inbox)|
    ensures x.date <= QueryInbox(inbox)[k].date
  {
    var sorted := Seqs.SortBy(inbox, LaterFirst);
    var n := |QueryInbox(inbox)|;
    assert QueryInbox(inbox) == sorted[..n];
    var j := Seqs.BeyondPrefix(sorted, n, x);
    LaterFirstIsOrder();
    Seqs.SortBySorted(inbox, LaterFirst);
    Seqs.SortedPairwise(sorted, LaterFirst, k, j);
  }

  // ---------------------------------------------------------------------------
  // Rows to JSON

  /** Which of the projected columns `getColumnIndex` found. */
  datatype Columns = Columns(address: bool, body: bool, date: bool)

  /** A cursor row: its values, or the reason reading them throws. */
  datatype CursorRow = Row(sms: StoredSms) | Unreadable(reason: string)

  /** What the content provider answers: an exception, no cursor at all, or a cursor. */
  datatype Query = Denied(reason: string) | NoCursor | Cursor(columns: Columns, rows: seq<CursorRow>)

  /** The JSON object the desktop reads for a message; a key put with a NULL value is absent (None). */
  type JsonSms = WifiSyncer.RawItem

  /**
   * The object for one row: a missing column gives `Unknown`, the empty text
   * or 0; a NULL text leaves its key out and a NULL date reads as 0. A row
   * that cannot be read throws as soon as one column is read.
   */
  function RowObject(columns: Columns, row: CursorRow): (r: Result<JsonSms>)
    ensures r.Err? <==> row.Unreadable? && (columns.address || columns.body || columns.date)
    ensures r.Err? ==> r.message == row.reason
    ensures r.Ok? ==> r.value.date.Some?
    ensures r.Ok? && !columns.address ==> r.value.address == Some("Unknown")
    ensures r.Ok? && !columns.body ==> r.value.body == Some("")
    ensures r.Ok? && !columns.date ==> r.value.date == Some(0)
    ensures row.Row? && columns.address ==> r.value.address == row.sms.address
    ensures row.Row? && columns.body ==> r.value.body == row.sms.body
    ensures row.Row? && columns.date ==> r.value.date == Some(row.sms.date)
  {
    match row
    case Unreadable(reason) =>
      if columns.address || columns.body || columns.date then Err(reason)
      else Ok(WifiSyncer.RawItem(Some("Unknown"), Some(""), Some(0)))
    case Row(sms) =>
      Ok(WifiSyncer.RawItem(
        if columns.address then sms.address else Some("Unknown"),
        if columns.body then sms.body else Some(""),
        Some(if columns.date then sms.date else 0)))
  }

  /**
   * `readSmsToJson`: one object per cursor row, in cursor order; the first
   * row that cannot be read aborts the whole list with its exception, and an
   * exception from the query itself does too. No cursor gives the empty list.
   */
  method ReadSmsToJson(query: Query) returns (r: Result<seq<JsonSms>>)
    ensures query.Denied? ==> r == Err(query.reason)
    ensures query.NoCursor? ==> r == Ok([])
    ensures query.Cursor? ==>
      var columns, rows := query.columns, query.rows;
      (r.Ok? <==> forall i :: 0 <= i < |rows| ==> RowObject(columns, rows[i]).Ok?)
      && (r.Ok? ==> |r.value| == |rows| && forall i :: 0 <= i < |rows| ==> r.value[i] == RowObject(columns, rows[i]).value)
      && (r.Err? ==> exists i :: 0 <= i < |rows| && RowObject(columns, rows[i]) == Err(r.message)
                                 && forall j :: 0 <= j < i ==> RowObject(columns, rows[j]).Ok?)
  {
    match query
    case Denied(reason) =>
      return Err(reason);
    case NoCursor =>
      return Ok([]);
    case Cursor(columns, rows) =>
      var items: seq<JsonSms> := [];
      for i := 0 to |rows|
        invariant |items| == i
        invariant forall j :: 0 <= j < i ==> RowObject(columns, rows[j]).Ok? && items[j] == RowObject(columns, rows[j]).value
      {
        var obj := RowObject(columns, rows[i]);
        if obj.Err? {
          return Err(obj.message);
        }
        items := items + [obj.value];
      }
      return Ok(items);
  }

  // ---------------------------------------------------------------------------
  // Route dispatch

  /** A response's payload: the JSON array, a plain text or the HTML page. */
  datatype Payload = Json(items: seq<JsonSms>) | Plain(text: string) | Html(page: string)

  datatype Response = Response(status: int, mimeType: string, payload: Payload)

  /** The liveness page served at `/`. */
  const LivenessPage: string := "<html><body><h1>SMS Server Calisiyor</h1></body></html>"

  /**
   * `serve`, given the request's URI and what reading the inbox would give:
   * `/sms` answers the list or a 500 with the exception's message, `/` the
   * liveness page, anything else 404.
   */
  function Serve(uri: string, read: Result<seq<JsonSms>>): (r: Response)
    ensures r.status == 200 <==> uri == "/" || (uri == "/sms" && read.Ok?)
    ensures r.status == 500 <==> uri == "/sms" && read.Err?
    ensures r.status == 404 <==> uri != "/sms" && uri != "/"
    ensures r.payload.Json? <==> uri == "/sms" && read.Ok?
    ensures r.payload.Json? ==> r.mimeType == "application/json" && r.payload.items == read.value
    ensures r.status == 500 ==> r == Response(500, "text/plain", Plain("Error: " + read.message))
    ensures r.status == 404 ==> r == Response(404, "text/plain", Plain("Not Found"))
    ensures uri == "/" ==> r == Response(200, "text/html", Html(LivenessPage))
  {
    if uri == "/sms" then
      match read
      case Ok(items) => Response(200, "application/json", Json(items))
      case Err(message) => Response(500, "text/plain", Plain("Error: " + message))
    else if uri == "/" then Response(200, "text/html", Html(LivenessPage))
    else Response(404, "text/plain", Plain("Not Found"))
  }

  /**
   * The desktop's view of a response to its poll: the status, the body as a
   * list when it is a JSON array, and whether its store callback takes a batch.
   */
  function AsPoll(r: Response, stored: bool): (p: WifiSyncer.Poll)
    ensures p.Reply? && p.status == r.status && p.stored == stored
    ensures p.items.Some? <==> r.payload.Json?
    ensures p.items.Some? ==> p.items.value == r.payload.items
  {
    WifiSyncer.Reply(r.status, if r.payload.Json? then Some(r.payload.items) else None, stored)
  }

  /**
   * Across the link: a poll of `/sms` hands the store a batch exactly when
   * the inbox read succeeds with at least one row, and delivers it exactly
   * when the store also takes it. It counts as an error exactly when the
   * read fails or the store raises on the batch, and a delivered batch holds
   * every listed object converted, in cursor order.
   */
  lemma PhoneToDesktop(read: Result<seq<JsonSms>>, stored: bool)
    ensures var p := AsPoll(Serve("/sms", read), stored);
      (WifiSyncer.Handed(p) <==> read.Ok? && read.value != [])
      && (WifiSyncer.Delivers(p) <==> read.Ok? && read.value != [] && stored)
      && (WifiSyncer.IsError(p) <==> read.Err? || (read.Ok? && read.value != [] && !stored))
      && (WifiSyncer.Delivers(p) ==> WifiSyncer.Batch(p).value == seq(|read.value|, i requires 0 <= i < |read.value| => WifiSyncer.Convert(read.value[i])))
  {
  }

  /** A stored message read through every column reaches the desktop with its sender, text and date. */
  lemma StoredReachesDesktop(sms: StoredSms, address: string, body: string)
    requires sms.address == Some(address) && sms.body == Some(body)
    ensures var obj := RowObject(Columns(true, true, true), Row(sms)).value;
            var synced := WifiSyncer.Convert(obj);
            synced.sender == address && synced.message == body
            && (sms.date >= 0 ==> synced.timestamp != [] && synced.timestamp[0] != '-')
  {
  }

  // ---------------------------------------------------------------------------
  // The server's lifetime

  /** A server instance: which start made it and whether it still accepts connections. */
  datatype Server = Server(generation: nat, alive: bool)

  class Service {
    var server: Option<Server>
    /** How many servers have been made. */
    var serversMade: nat

    constructor ()
      ensures server.None? && serversMade == 0
    {
      server := None;
      serversMade := 0;
    }

    /**
     * `startServer`: a server is made and started only when there is none or
     * the current one is no longer alive; `startFails` says whether binding
     * the port throws, which leaves the new server not alive.
     */
    method StartServer(startFails: bool)
      modifies this
      ensures old(server).Some? && old(server).value.alive ==> server == old(server) && serversMade == old(serversMade)
      ensures old(server).None? || !old(server).value.alive ==>
                serversMade == old(serversMade) + 1 && server == Some(Server(serversMade, !startFails))
    {
      if server.None? || !server.value.alive {
        serversMade := serversMade + 1;
        server := Some(Server(serversMade, !startFails));
      }
    }

    /** `onDestroy`: the server, if any, stops. */
    method Destroy()
      modifies this
      ensures old(server).None? ==> server.None?
      ensures old(server).Some? ==> server == Some(old(server).value.(alive := false))
      ensures serversMade == old(serversMade)
    {
      if server.Some? {
        server := Some(server.value.(alive := false));
      }
    }
  }
}
