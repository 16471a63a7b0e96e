/**
 * The desktop side's USB link to the phone (`ADBSyncer`): the parsers it runs
 * over the text `adb` prints and the flags `start_sync`/`stop_sync` set.
 * Running `adb` is left to the caller; each method is given what the command
 * printed, or None when it could not be run.
 */
module AdbManager {
  import opened Wrappers
  import Text
  import Seqs
  import opened AdbFields

  // ---------------------------------------------------------------------------
  // adb devices

  /** One entry of `adb devices`. */
  datatype Device = Device(serial: string, state: string)

  /** A line of `adb devices` below its header names a device when it has at least two words. */
  function DeviceOf(line: string): (d: Option<Device>)
    ensures d.Some? <==> |Text.Tokens(line)| >= 2
    ensures d.Some? ==> d.value.serial == Text.Tokens(line)[0] && d.value.state == Text.Tokens(line)[1]
    ensures d.Some? ==> Text.IsWord(d.value.serial) && Text.IsWord(d.value.state)
  {
    if Text.Strip(line) == [] then
      Text.TokensOfBlank(line);
      None
    else
      var parts := Text.Tokens(line);
      Text.TokensAreWords(line);
      if |parts| >= 2 then Some(Device(parts[0], parts[1])) else None
  }

  /** The lines of `output` after the header line `List of devices attached`. */
  function BelowHeader(output: string): seq<string> {
    var lines := Text.Lines(output);
    if lines == [] then [] else lines[1..]
  }

  /** The devices listed in `output`, in line order; no devices when `adb` could not be run. */
  method GetDevices(output: Option<string>) returns (devices: seq<Device>)
    ensures output.None? ==> devices == []
    ensures output.Some? ==> devices == Seqs.FilterMap(BelowHeader(output.value), DeviceOf)
    ensures forall k :: 0 <= k < |devices| ==> Text.IsWord(devices[k].serial) && Text.IsWord(devices[k].state)
  {
    devices := [];
    if output.None? {
      return;
    }
    var lines := BelowHeader(output.value);
    for i := 0 to |lines|
      invariant devices == Seqs.FilterMap(lines[..i], DeviceOf)
    {
      Seqs.FilterMapStep(lines, i, DeviceOf);
      var device := DeviceOf(lines[i]);
      if device.Some? {
        devices := devices + [device.value];
      }
    }
    assert lines[..|lines|] == lines;
    DevicesAreWords(lines);
  }

  /** Every device read from a listing has a one-word serial and state. */
  lemma DevicesAreWords(lines: seq<string>)
    ensures var devices := Seqs.FilterMap(lines, DeviceOf);
            forall k :: 0 <= k < |devices| ==> Text.IsWord(devices[k].serial) && Text.IsWord(devices[k].state)
  {
    var devices := Seqs.FilterMap(lines, DeviceOf);
    forall k | 0 <= k < |devices| ensures Text.IsWord(devices[k].serial) && Text.IsWord(devices[k].state) {
      var j :| 0 <= j < |lines| && DeviceOf(lines[j]) == Some(devices[k]);
    }
  }

  /** Every line below the header with two or more words yields its device. */
  lemma {:induction false} EveryDeviceListed(output: string, j: nat)
    requires j < |BelowHeader(output)| && |Text.Tokens(BelowHeader(output)[j])| >= 2
    ensures DeviceOf(BelowHeader(output)[j]).value in Seqs.FilterMap(BelowHeader(output), DeviceOf)
  {
    Seqs.FilterMapComplete(BelowHeader(output), DeviceOf, j);
  }

  // ---------------------------------------------------------------------------
  // Blocked numbers

  /** The number on a line of the blocked-number query: after `original_number=`, up to a comma or the end, stripped. */
  function BlockedEntry(line: string): (n: Option<string>)
    ensures n.Some? <==> ValueUntil(line, "original_number=", [","]).Some?
                         && Text.Strip(ValueUntil(line, "original_number=", [","]).value) != []
    ensures n.Some? ==> n.value == Text.Strip(ValueUntil(line, "original_number=", [","]).value)
    ensures n.Some? ==> n.value != [] && Text.Strip(n.value) == n.value
    ensures n.Some? ==> Text.Contains(line, "original_number=") && ',' !in n.value
  {
    match ValueUntil(line, "original_number=", [","])
    case None => None
    case Some(v) =>
      var num := Text.Strip(v);
      Text.StripIdempotent(v);
      if num == [] then None
      else
        ValueAvoidsStop(line, "original_number=", [","], ',');
        Text.StripAvoids(v, ',');
        Some(num)
  }

  /** The blocked numbers `output` lists; none when the query could not be run. */
  method GetBlockedNumbers(output: Option<string>) returns (blocked: set<string>)
    ensures output.None? ==> blocked == {}
    ensures output.Some? ==> forall n :: n in blocked <==> n in Seqs.FilterMap(Text.Lines(output.value), BlockedEntry)
  {
    blocked := {};
    if output.None? {
      return;
    }
    var lines := Text.Lines(output.value);
    for i := 0 to |lines|
      invariant forall n :: n in blocked <==> n in Seqs.FilterMap(lines[..i], BlockedEntry)
    {
      Seqs.FilterMapStep(lines, i, BlockedEntry);
      var entry := BlockedEntry(lines[i]);
      if entry.Some? {
        blocked := blocked + {entry.value};
      }
    }
    assert lines[..|lines|] == lines;
  }

  /** A number is blocked exactly when some line of the query lists it, and every blocked number is a stripped, comma-free word. */
  lemma BlockedListed(lines: seq<string>, n: string)
    ensures n in Seqs.FilterMap(lines, BlockedEntry) <==> exists j :: 0 <= j < |lines| && BlockedEntry(lines[j]) == Some(n)
    ensures n in Seqs.FilterMap(lines, BlockedEntry) ==> n != [] && Text.Strip(n) == n && ',' !in n
  {
    if exists j :: 0 <= j < |lines| && BlockedEntry(lines[j]) == Some(n) {
      var j :| 0 <= j < |lines| && BlockedEntry(lines[j]) == Some(n);
      Seqs.FilterMapComplete(lines, BlockedEntry, j);
    }
  }

  // ---------------------------------------------------------------------------
  // Reading the inbox

  /** The address of an inbox line: after `address=` up to `, body=`, `, date=` or the end, stripped. */
  function AddressOf(line: string): Option<string> {
    match ValueUntil(line, "address=", [", body=", ", date="])
    case None => None
    case Some(a) => Some(Text.Strip(a))
  }

  /** The record one line of the inbox query yields, unless it is blank, has no address or a blocked one. */
  function InboxLine(line: string, blocked: set<string>): (r: Option<InboxRecord>)
    ensures r.Some? <==> Text.Contains(line, "address=") && AddressOf(line).value != [] && AddressOf(line).value !in blocked
    ensures r.Some? ==> r.value == InboxRecord(AddressOf(line).value, MessageOf(line), DateMillis(line))
  {
    if Text.Strip(line) == [] then
      assert !Text.Contains(line, "address=") by {
        if Text.Contains(line, "address=") {
          var k := Text.IndexOf(line, "address=").value;
          Text.BlankHoldsOnlySpace(line, "address=", k);
        }
      }
      None
    else if !Text.Contains(line, "address=") then None
    else match AddressOf(line)
      case None => None
      case Some(address) =>
        if address == [] || address in blocked then None
        else Some(InboxRecord(address, MessageOf(line), DateMillis(line)))
  }

  /** `InboxLine` with the blocked set fixed, as a function of the line alone. */
  function InboxParser(blocked: set<string>): string -> Option<InboxRecord> {
    line => InboxLine(line, blocked)
  }

  /**
   * One pass of the inbox sync: the batch handed to the save callback, given
   * the blocked numbers, the query's exit code and what it printed; None when
   * the callback is not called.
   */
  method FetchAndSave(blocked: set<string>, returnCode: int, output: string) returns (batch: Option<seq<InboxRecord>>)
    ensures returnCode != 0 ==> batch.None?
    ensures returnCode == 0 ==>
      var records := Seqs.FilterMap(Text.Lines(output), InboxParser(blocked));
      batch == if records == [] then None else Some(records)
    ensures batch.Some? ==> forall k :: 0 <= k < |batch.value| ==>
              batch.value[k].sender !in blocked && batch.value[k].sender != [] && batch.value[k].message != []
  {
    if returnCode != 0 {
      return None;
    }
    var lines := Text.Lines(output);
    var bulk: seq<InboxRecord> := [];
    for i := 0 to |lines|
      invariant bulk == Seqs.FilterMap(lines[..i], InboxParser(blocked))
    {
      Seqs.FilterMapStep(lines, i, InboxParser(blocked));
      var line := lines[i];
      if Text.Strip(line) == [] {
        continue;
      }
      if !Text.Contains(line, "address=") {
        continue;
      }
      var address := AddressOf(line);
      if address.None? || address.value == [] || address.value in blocked {
        continue;
      }
      bulk := bulk + [InboxRecord(address.value, MessageOf(line), DateMillis(line))];
    }
    assert lines[..|lines|] == lines;
    batch := if bulk == [] then None else Some(bulk);
    if batch.Some? {
      forall k | 0 <= k < |bulk|
        ensures bulk[k].sender !in blocked && bulk[k].sender != [] && bulk[k].message != []
      {
        var j :| 0 <= j < |lines| && InboxParser(blocked)(lines[j]) == Some(bulk[k]);
      }
    }
  }

  /** A line naming an unblocked, non-empty address reaches the batch. */
  lemma {:induction false} UnblockedLineSaved(output: string, blocked: set<string>, j: nat)
    requires j < |Text.Lines(output)|
    requires Text.Contains(Text.Lines(output)[j], "address=")
    requires AddressOf(Text.Lines(output)[j]).value != [] && AddressOf(Text.Lines(output)[j]).value !in blocked
    ensures Seqs.FilterMap(Text.Lines(output), InboxParser(blocked)) != []
    ensures InboxLine(Text.Lines(output)[j], blocked).value in Seqs.FilterMap(Text.Lines(output), InboxParser(blocked))
  {
    Seqs.FilterMapComplete(Text.Lines(output), InboxParser(blocked), j);
  }

  // ---------------------------------------------------------------------------
  // The syncer's flags

  /** The sync controller: whether the loop should run, which device it reads, and its worker thread. */
  class AdbSyncer {
    var active: bool
    var deviceSerial: Option<string>
    /** A worker thread has been made (`self.thread` is not None). */
    var hasWorker: bool
    /** How many worker threads have been started. */
    var workerStarted: nat

    constructor ()
      ensures !active && deviceSerial.None? && !hasWorker && workerStarted == 0
    {
      active := false;
      deviceSerial := None;
      hasWorker := false;
      workerStarted := 0;
    }

    /**
     * Point the loop at `serial` and switch it on; a new worker is started
     * when there is none yet or the last one has ended (`workerAlive` says
     * whether the last one still runs, and matters only when there is one).
     */
    method StartSync(serial: string, workerAlive: bool) returns (startsWorker: bool)
      modifies this
      ensures active && deviceSerial == Some(serial) && hasWorker
      ensures startsWorker <==> !old(hasWorker) || !workerAlive
      ensures workerStarted == old(workerStarted) + (if startsWorker then 1 else 0)
    {
      deviceSerial := Some(serial);
      active := true;
      startsWorker := !hasWorker || !workerAlive;
      if startsWorker {
        hasWorker := true;
        workerStarted := workerStarted + 1;
      }
    }

    /** Ask the loop to stop; it notices at its next check. */
    method StopSync()
      modifies this
      ensures !active
      ensures deviceSerial == old(deviceSerial) && hasWorker == old(hasWorker) && workerStarted == old(workerStarted)
    {
      active := false;
    }
  }
}
