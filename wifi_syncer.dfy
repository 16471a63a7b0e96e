/**
 * The desktop side's Wi-Fi link to the phone (`WiFiSyncer`): which address it
 * polls, whether it runs, how it converts the phone's `/sms` reply and how
 * its error count sets the pause between polls. The worker thread, the HTTP
 * client and the sleeping are left out; a run of the loop is given as the
 * sequence of poll results it sees.
 */
module WifiSyncer {
  import opened Wrappers
  import Text
  import Seqs

  // ---------------------------------------------------------------------------
  // Start, stop and status

  /** The status the desktop reports for the Wi-Fi link. */
  datatype Status = Status(active: bool, device: Option<string>, kind: string)

  class WifiSyncer {
    var activeIp: Option<string>
    var isRunning: bool
    /** The stop event the worker checks before each poll. */
    var stopRequested: bool
    /** How many workers have been started. */
    var workersStarted: nat

    constructor ()
      ensures activeIp.None? && !isRunning && !stopRequested && workersStarted == 0
    {
      activeIp := None;
      isRunning := false;
      stopRequested := false;
      workersStarted := 0;
    }

    /** Poll `ip` from now on; a no-op when that address is already being polled. */
    method StartSync(ip: string)
      modifies this
      ensures old(isRunning) && old(activeIp) == Some(ip) ==>
                activeIp == old(activeIp) && isRunning == old(isRunning)
                && stopRequested == old(stopRequested) && workersStarted == old(workersStarted)
      ensures !(old(isRunning) && old(activeIp) == Some(ip)) ==>
                activeIp == Some(ip) && isRunning && !stopRequested && workersStarted == old(workersStarted) + 1
    {
      if isRunning && activeIp == Some(ip) {
        return;
      }
      StopSync();
      activeIp := Some(ip);
      stopRequested := false;
      isRunning := true;
      workersStarted := workersStarted + 1;
    }

    /** Stop polling: the worker is told to stop and the address is forgotten. */
    method StopSync()
      modifies this
      ensures !isRunning && stopRequested && activeIp.None?
      ensures workersStarted == old(workersStarted)
    {
      isRunning := false;
      stopRequested := true;
      activeIp := None;
    }

    /** The reported status; an address names the device only when it is set and non-empty. */
    function GetStatus(): (s: Status)
      reads this
      ensures s.active == isRunning && s.kind == "wifi"
      ensures s.device.Some? <==> activeIp.Some? && activeIp.value != []
      ensures s.device.Some? ==> s.device.value == "WiFi (" + activeIp.value + ")"
    {
      Status(isRunning, if activeIp.Some? && activeIp.value != [] then Some("WiFi (" + activeIp.value + ")") else None, "wifi")
    }
  }

  // ---------------------------------------------------------------------------
  // Converting the phone's reply

  /** One object of the phone's `/sms` array; a missing key is None. */
  datatype RawItem = RawItem(address: Option<string>, body: Option<string>, date: Option<int>)

  /** One message handed on to the desktop's store. */
  datatype SyncedSms = SyncedSms(sender: string, message: string, timestamp: string)

  /** A reply object in the desktop's format: missing keys default to `Unknown`, the empty text and date 0. */
  function Convert(item: RawItem): (s: SyncedSms)
    ensures s.sender == item.address.GetOr("Unknown") && s.message == item.body.GetOr("")
    ensures s.timestamp != []
    ensures item.date.GetOr(0) >= 0 ==> Text.AllDigits(s.timestamp) && Text.DecimalValue(s.timestamp) == item.date.GetOr(0)
    ensures item.date.GetOr(0) < 0 ==>
              s.timestamp[0] == '-' && Text.AllDigits(s.timestamp[1..]) && Text.DecimalValue(s.timestamp[1..]) == -item.date.GetOr(0)
  {
    SyncedSms(item.address.GetOr("Unknown"), item.body.GetOr(""), Text.IntToDecimal(item.date.GetOr(0)))
  }

  /** The whole reply converted, one message per object in reply order. */
  method ConvertAll(raw: seq<RawItem>) returns (smsList: seq<SyncedSms>)
    ensures |smsList| == |raw|
    ensures forall i :: 0 <= i < |raw| ==> smsList[i] == Convert(raw[i])
  {
    smsList := [];
    for i := 0 to |raw|
      invariant |smsList| == i
      invariant forall j :: 0 <= j < i ==> smsList[j] == Convert(raw[j])
    {
      var tsVal := raw[i].date.GetOr(0);
      smsList := smsList + [SyncedSms(raw[i].address.GetOr("Unknown"), raw[i].body.GetOr(""), Text.IntToDecimal(tsVal))];
    }
  }

  // ---------------------------------------------------------------------------
  // The polling loop

  /**
   * What one poll of the phone ends with: no connection, or a reply whose
   * body may not parse as a list. `stored` says whether the store callback
   * returns normally when the poll hands it a batch; it matters only then.
   */
  datatype Poll = ConnectionError | Reply(status: int, items: Option<seq<RawItem>>, stored: bool)

  /** The poll hands a non-empty list to the store callback. */
  predicate Handed(p: Poll) {
    p.Reply? && p.status == 200 && p.items.Some? && p.items.value != []
  }

  /** The poll hands a non-empty list on and the store callback takes it without raising. */
  predicate Delivers(p: Poll) {
    Handed(p) && p.stored
  }

  /**
   * The poll counts as an error: no connection, a status other than 200, a
   * body that does not parse, or a store callback that raises on the batch.
   */
  predicate IsError(p: Poll) {
    p.ConnectionError? || p.status != 200 || p.items.None? || (Handed(p) && !p.stored)
  }

  /** The error count after one more poll. */
  function NextErrorCount(count: nat, p: Poll): (c: nat)
    ensures Delivers(p) ==> c == 0
    ensures IsError(p) ==> c == count + 1
    ensures !Delivers(p) && !IsError(p) ==> c == count
  {
    if Delivers(p) then 0 else if IsError(p) then count + 1 else count
  }

  /** The pause before the next poll, in seconds: longer once more than three errors have piled up. */
  function SleepSeconds(count: nat): (s: nat)
    ensures count > 3 ==> s == 5
    ensures count <= 3 ==> s == 2
  {
    if count > 3 then 5 else 2
  }

  /** The index just past the last delivering poll, or 0 when none delivered. */
  function LastDeliveryEnd(polls: seq<Poll>): (e: nat)
    ensures e <= |polls|
    ensures e == 0 || Delivers(polls[e - 1])
    ensures forall i :: e <= i < |polls| ==> !Delivers(polls[i])
  {
    if polls == [] then 0
    else if Delivers(polls[|polls| - 1]) then |polls|
    else LastDeliveryEnd(polls[..|polls| - 1])
  }

  /** The number of failed polls since the last delivery. */
  function ErrorsSinceDelivery(polls: seq<Poll>): nat {
    Seqs.Count(polls[LastDeliveryEnd(polls)..], IsError)
  }

  /** `NextErrorCount` keeps counting the failures since the last delivery. */
  lemma {:induction false} ErrorsStep(polls: seq<Poll>, p: Poll)
    ensures ErrorsSinceDelivery(polls + [p]) == NextErrorCount(ErrorsSinceDelivery(polls), p)
  {
    var all := polls + [p];
    assert all[..|all| - 1] == polls;
    if !Delivers(p) {
      var e := LastDeliveryEnd(polls);
      assert all[e..] == polls[e..] + [p];
      Seqs.FilterAppend(polls[e..], [p], IsError);
    }
  }

  /** The batch a poll delivers, if any; a batch whose store callback raises is lost. */
  function Batch(p: Poll): Option<seq<SyncedSms>> {
    if Delivers(p) then Some(seq(|p.items.value|, i requires 0 <= i < |p.items.value| => Convert(p.items.value[i])))
    else None
  }

  /** The pauses after each poll of a run. */
  function SleepSchedule(polls: seq<Poll>): (r: seq<nat>)
    ensures |r| == |polls|
  {
    if polls == [] then [] else SleepSchedule(polls[..|polls| - 1]) + [SleepSeconds(ErrorsSinceDelivery(polls))]
  }

  /** The pause after poll `i` follows the failures since the last delivery up to and including it. */
  lemma {:induction false} SleepScheduleAt(polls: seq<Poll>, i: nat)
    requires i < |polls|
    ensures SleepSchedule(polls)[i] == SleepSeconds(ErrorsSinceDelivery(polls[..i + 1]))
  {
    if i < |polls| - 1 {
      var init := polls[..|polls| - 1];
      SleepScheduleAt(init, i);
      assert init[..i + 1] == polls[..i + 1];
    } else {
      assert polls[..i + 1] == polls;
    }
  }

  /** One poll: the batch it hands on and the error count after it. */
  method PollOnce(count: nat, p: Poll) returns (batch: Option<seq<SyncedSms>>, newCount: nat)
    ensures batch == Batch(p)
    ensures newCount == NextErrorCount(count, p)
  {
    batch, newCount := None, count;
    match p
    case ConnectionError =>
      newCount := count + 1;
    case Reply(status, items, _) =>
      if status == 200 {
        match items
        case None =>
          newCount := count + 1;
        case Some(raw) =>
          var smsList := ConvertAll(raw);
          assert smsList == seq(|raw|, i requires 0 <= i < |raw| => Convert(raw[i]));
          if smsList != [] {
            if p.stored {
              batch := Some(smsList);
              newCount := 0;
            } else {
              newCount := count + 1;
            }
          }
      } else {
        newCount := count + 1;
      }
  }

  /**
   * A run of the worker over `polls`: the batches handed to the store, the
   * final error count and the pause taken after each poll.
   */
  method SyncLoop(polls: seq<Poll>) returns (batches: seq<seq<SyncedSms>>, errorCount: nat, sleeps: seq<nat>)
    ensures batches == Seqs.FilterMap(polls, Batch)
    ensures errorCount == ErrorsSinceDelivery(polls)
    ensures sleeps == SleepSchedule(polls)
  {
    batches, errorCount, sleeps := [], 0, [];
    for i := 0 to |polls|
      invariant batches == Seqs.FilterMap(polls[..i], Batch)
      invariant errorCount == ErrorsSinceDelivery(polls[..i])
      invariant sleeps == SleepSchedule(polls[..i])
    {
      assert polls[..i + 1] == polls[..i] + [polls[i]];
      assert polls[..i + 1][..i] == polls[..i];
      ErrorsStep(polls[..i], polls[i]);
      Seqs.FilterMapStep(polls, i, Batch);
      var batch;
      batch, errorCount := PollOnce(errorCount, polls[i]);
      if batch.Some? {
        batches := batches + [batch.value];
      }
      sleeps := sleeps + [SleepSeconds(errorCount)];
    }
    assert polls[..|polls|] == polls;
  }
}
