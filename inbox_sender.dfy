/**
 * The first phone app: a button that reads the whole SMS inbox and posts it
 * in one batch to the desktop's bulk route. Permissions, the content
 * provider and the HTTP client are left out: whether the permissions are
 * granted, what the cursor holds and how the POST ends are parameters, and
 * the batch is the list of elements the bulk route receives.
 */
module InboxSender {
  import opened Wrappers
  import Text
  import Seqs
  import MessageStore

  // ---------------------------------------------------------------------------
  // Reading the inbox

  /** A cursor row; a NULL column is None. */
  datatype InboxRow = InboxRow(address: Option<string>, body: Option<string>)

  /** What the inbox query answers: no cursor, or which columns it found and its rows (newest first). */
  datatype Inbox = NoCursor | Cursor(hasAddress: bool, hasBody: bool, rows: seq<InboxRow>)

  /** A message to send: the sender (None when the address is NULL) and the non-empty text. */
  datatype Outgoing = Outgoing(sender: Option<string>, message: string)

  /** The failure of reading a NULL body as a string. */
  const NullBodyError: string := "null object reference"

  /** Reading this row's body fails: the column is there and holds NULL. */
  predicate NullBody(hasBody: bool, row: InboxRow) {
    hasBody && row.body.None?
  }

  /**
   * The message a row gives: the address (`Bilinmeyen` without the column)
   * and the body (the empty text without the column); none when the body is
   * empty or cannot be read.
   */
  function RowMessage(hasAddress: bool, hasBody: bool): InboxRow -> Option<Outgoing> {
    (row: InboxRow) =>
      var address := if hasAddress then row.address else Some("Bilinmeyen");
      var body := if hasBody then row.body.GetOr("") else "";
      if body != [] then Some(Outgoing(address, body)) else None
  }

  /** Some row of the cursor has a NULL body that is read. */
  predicate AnyNullBody(inbox: Inbox) {
    inbox.Cursor? && exists i :: 0 <= i < |inbox.rows| && NullBody(inbox.hasBody, inbox.rows[i])
  }

  /** The messages an inbox gives when every row can be read. */
  function Readable(inbox: Inbox): seq<Outgoing> {
    if inbox.NoCursor? then [] else Seqs.FilterMap(inbox.rows, RowMessage(inbox.hasAddress, inbox.hasBody))
  }

  /**
   * `readAllSms`: without the permissions, or with no cursor, the empty
   * list; otherwise one message per row with a non-empty body, in cursor
   * order, unless some row's body is NULL, which throws.
   */
  method ReadAllSms(hasPermission: bool, inbox: Inbox) returns (r: Result<seq<Outgoing>>)
    ensures !hasPermission || inbox.NoCursor? ==> r == Ok([])
    ensures hasPermission && inbox.Cursor? ==>
      (r.Ok? <==> forall i :: 0 <= i < |inbox.rows| ==> !NullBody(inbox.hasBody, inbox.rows[i]))
      && (r.Ok? ==> r.value == Seqs.FilterMap(inbox.rows, RowMessage(inbox.hasAddress, inbox.hasBody)))
      && (r.Err? ==> r.message == NullBodyError)
  {
    if !hasPermission || inbox.NoCursor? {
      return Ok([]);
    }
    var rows := inbox.rows;
    var smsList: seq<Outgoing> := [];
    for i := 0 to |rows|
      invariant smsList == Seqs.FilterMap(rows[..i], RowMessage(inbox.hasAddress, inbox.hasBody))
      invariant forall j :: 0 <= j < i ==> !NullBody(inbox.hasBody, rows[j])
    {
      Seqs.FilterMapStep(rows, i, RowMessage(inbox.hasAddress, inbox.hasBody));
      var address := if inbox.hasAddress then rows[i].address else Some("Bilinmeyen");
      if inbox.hasBody && rows[i].body.None? {
        return Err(NullBodyError);
      }
      var body := if inbox.hasBody then rows[i].body.value else "";
      if body != [] {
        smsList := smsList + [Outgoing(address, body)];
      }
    }
    assert rows[..|rows|] == rows;
    return Ok(smsList);
  }

  /** Every message read has a non-empty text and comes from a row with that text (or from a row read without the body column, which gives none). */
  lemma ReadMessagesNonEmpty(hasAddress: bool, hasBody: bool, rows: seq<InboxRow>, k: nat)
    requires k < |Seqs.FilterMap(rows, RowMessage(hasAddress, hasBody))|
    ensures var m := Seqs.FilterMap(rows, RowMessage(hasAddress, hasBody))[k];
            m.message != [] && hasBody
            && exists j :: 0 <= j < |rows| && rows[j].body == Some(m.message)
                           && m.sender == (if hasAddress then rows[j].address else Some("Bilinmeyen"))
  {
    var m := Seqs.FilterMap(rows, RowMessage(hasAddress, hasBody))[k];
    var j :| 0 <= j < |rows| && RowMessage(hasAddress, hasBody)(rows[j]) == Some(m);
  }

  /** Without the body column nothing is read at all. */
  lemma {:induction false} NoBodyColumnReadsNothing(hasAddress: bool, rows: seq<InboxRow>)
    ensures Seqs.FilterMap(rows, RowMessage(hasAddress, false)) == []
  {
    if rows != [] {
      NoBodyColumnReadsNothing(hasAddress, rows[..|rows| - 1]);
    }
  }

  // ---------------------------------------------------------------------------
  // The batch

  /** `sendBulkSms`'s JSON array: one `{sender, message}` object per message, in order; a NULL sender leaves its key out. */
  method BulkPayload(smsList: seq<Outgoing>) returns (payload: seq<MessageStore.BulkItem>)
    ensures |payload| == |smsList|
    ensures forall i :: 0 <= i < |smsList| ==>
              payload[i] == MessageStore.Item(smsList[i].sender, Some(smsList[i].message), None)
  {
    payload := [];
    for i := 0 to |smsList|
      invariant |payload| == i
      invariant forall j :: 0 <= j < i ==> payload[j] == MessageStore.Item(smsList[j].sender, Some(smsList[j].message), None)
    {
      payload := payload + [MessageStore.Item(smsList[i].sender, Some(smsList[i].message), None)];
    }
  }

  /** How the POST ends: an exception with its message, or a response code. */
  datatype PostOutcome = PostFailed(reason: string) | Answered(code: int)

  /** OkHttp's `isSuccessful`: a 2xx code. */
  predicate Successful(code: int) {
    200 <= code < 300
  }

  /**
   * `sendBulkSms`: the batch posted and how it ends; a failed call or a
   * non-2xx code is rethrown as "Gönderim hatası: ...".
   */
  method SendBulkSms(smsList: seq<Outgoing>, outcome: PostOutcome) returns (payload: seq<MessageStore.BulkItem>, r: Result<()>)
    ensures |payload| == |smsList|
    ensures forall i :: 0 <= i < |smsList| ==>
              payload[i] == MessageStore.Item(smsList[i].sender, Some(smsList[i].message), None)
    ensures r.Ok? <==> outcome.Answered? && Successful(outcome.code)
    ensures outcome.PostFailed? ==> r == Err("Gönderim hatası: " + outcome.reason)
    ensures outcome.Answered? && !Successful(outcome.code) ==>
              r == Err("Gönderim hatası: " + ("API hatası: " + Text.IntToDecimal(outcome.code)))
  {
    payload := BulkPayload(smsList);
    match outcome
    case PostFailed(reason) =>
      r := Err("Gönderim hatası: " + reason);
    case Answered(code) =>
      if !Successful(code) {
        r := Err("Gönderim hatası: " + ("API hatası: " + Text.IntToDecimal(code)));
      } else {
        r := Ok(());
      }
  }

  /** Received by the bulk route, the batch leaves every message with a known sender stored. */
  lemma PayloadStored(records: seq<MessageStore.Sms>, smsList: seq<Outgoing>, payload: seq<MessageStore.BulkItem>, clock: MessageStore.Clock, k: nat)
    requires |payload| == |smsList|
    requires forall i :: 0 <= i < |smsList| ==> payload[i] == MessageStore.Item(smsList[i].sender, Some(smsList[i].message), None)
    requires k < |smsList| && smsList[k].sender.Some?
    ensures MessageStore.HasPair(MessageStore.Merge(records, payload, clock), smsList[k].sender.value, smsList[k].message)
  {
    MessageStore.MergeCovers(records, payload, clock);
  }

  /** A message whose address is NULL reaches the bulk route without a sender, and the route skips it. */
  lemma NullSenderSkipped(records: seq<MessageStore.Sms>, message: string, clock: MessageStore.Clock)
    ensures MessageStore.Merge(records, [MessageStore.Item(None, Some(message), None)], clock) == records
  {
    assert [MessageStore.Item(None, Some(message), None)][..0] == [];
  }

  // ---------------------------------------------------------------------------
  // The screen

  class SenderScreen {
    var statusText: string
    /** The batches posted, oldest first. */
    var posted: seq<seq<MessageStore.BulkItem>>

    constructor ()
      ensures posted == []
    {
      statusText := "";
      posted := [];
    }

    /**
     * The sync button: without the permissions only a warning; otherwise the
     * inbox is read, an empty inbox posts nothing, and the screen ends with
     * the count sent or the error's message.
     */
    method SyncAllButton(hasPermission: bool, inbox: Inbox, outcome: PostOutcome)
      modifies this
      ensures !hasPermission ==> statusText == "⚠️ Önce SMS okuma izni verin!" && posted == old(posted)
      ensures hasPermission && AnyNullBody(inbox) ==>
                statusText == "❌ Hata: " + NullBodyError && posted == old(posted)
      ensures hasPermission && !AnyNullBody(inbox) && Readable(inbox) == [] ==>
                statusText == "ℹ️ Telefonda SMS bulunamadı." && posted == old(posted)
      ensures hasPermission && !AnyNullBody(inbox) && Readable(inbox) != [] ==>
                var sent := Readable(inbox);
                |posted| == |old(posted)| + 1 && posted[..|old(posted)|] == old(posted)
                && |posted[|old(posted)|]| == |sent|
                && (forall i :: 0 <= i < |sent| ==>
                      posted[|old(posted)|][i] == MessageStore.Item(sent[i].sender, Some(sent[i].message), None))
                && (outcome.Answered? && Successful(outcome.code) ==>
                      statusText == "✅ " + Text.NatToDecimal(|sent|) + " SMS başarıyla gönderildi!")
                && (outcome.PostFailed? ==> statusText == "❌ Hata: " + ("Gönderim hatası: " + outcome.reason))
                && (outcome.Answered? && !Successful(outcome.code) ==>
                      statusText == "❌ Hata: " + ("Gönderim hatası: " + ("API hatası: " + Text.IntToDecimal(outcome.code))))
    {
      if !hasPermission {
        statusText := "⚠️ Önce SMS okuma izni verin!";
        return;
      }
      statusText := "📤 Tüm SMS'ler gönderiliyor...";
      var read := ReadAllSms(hasPermission, inbox);
      if read.Err? {
        statusText := "❌ Hata: " + read.message;
        assert statusText == "❌ Hata: " + NullBodyError;
        return;
      }
      var allSms := read.value;
      if allSms == [] {
        statusText := "ℹ️ Telefonda SMS bulunamadı.";
        return;
      }
      var payload, sent := SendBulkSms(allSms, outcome);
      posted := posted + [payload];
      if sent.Err? {
        statusText := "❌ Hata: " + sent.message;
      } else {
        statusText := "✅ " + Text.NatToDecimal(|allSms|) + " SMS başarıyla gönderildi!";
      }
    }
  }
}
