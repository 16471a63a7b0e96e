/**
 * The stand-alone USB sync script: it checks that `adb devices` reports a
 * device, reads the inbox with `adb shell content query`, turns the `Row:`
 * lines into messages and posts them to the bulk route in one batch.
 * Running `adb` and the POST are left to the caller: the methods are given
 * what the commands printed and return what would be posted.
 */
module AdbSync {
  import opened Wrappers
  import Text
  import Seqs
  import opened AdbFields
  import AdbManager

  /**
   * What one run of the script ends with. `AdbMissing` is the exception
   * `adb devices` raises when it cannot be started: nothing catches it, so
   * it ends the script's polling loop as well.
   */
  datatype Outcome =
    | AdbMissing
    | WaitingForDevice
    | AdbFailed
    | NothingParsed
    | Post(batch: seq<InboxRecord>)

  /** `adb devices` lists at least one device in the `device` state. */
  predicate DeviceReady(devicesOutput: string) {
    Text.Contains(devicesOutput, "device\n") || Text.Contains(devicesOutput, "device\r")
  }

  /** The address of a `Row:` line: after `address=` up to `, body=` or the end, stripped. */
  function SyncAddress(line: string): Option<string> {
    match ValueUntil(line, "address=", [", body="])
    case None => None
    case Some(a) => Some(Text.Strip(a))
  }

  /** The message one line of the inbox query yields: only `Row:` lines with a non-empty address, whatever the sender. */
  function SyncLine(line: string): (r: Option<InboxRecord>)
    ensures r.Some? <==> Text.Contains(line, "Row:") && Text.Contains(line, "address=") && SyncAddress(line).value != []
    ensures r.Some? ==> r.value == InboxRecord(SyncAddress(line).value, MessageOf(line), DateMillis(line))
  {
    if !Text.Contains(line, "Row:") then None
    else match SyncAddress(line)
      case None => None
      case Some(address) =>
        if address != [] then Some(InboxRecord(address, MessageOf(line), DateMillis(line))) else None
  }

  /**
   * One run of the script, given what `adb devices` printed and the inbox
   * query's exit code and output (each None when the command could not be
   * started).
   */
  method SyncViaAdb(devicesOutput: Option<string>, query: Option<(int, string)>) returns (outcome: Outcome)
    ensures devicesOutput.None? <==> outcome == AdbMissing
    ensures devicesOutput.Some? ==> (!DeviceReady(devicesOutput.value) <==> outcome == WaitingForDevice)
    ensures devicesOutput.Some? && DeviceReady(devicesOutput.value) && (query.None? || query.value.0 != 0) ==> outcome == AdbFailed
    ensures devicesOutput.Some? && DeviceReady(devicesOutput.value) && query.Some? && query.value.0 == 0 ==>
      var records := Seqs.FilterMap(Text.Lines(query.value.1), SyncLine);
      outcome == if records == [] then NothingParsed else Post(records)
  {
    if devicesOutput.None? {
      return AdbMissing;
    }
    if !DeviceReady(devicesOutput.value) {
      return WaitingForDevice;
    }
    if query.None? {
      return AdbFailed;
    }
    var (returnCode, output) := query.value;
    if returnCode != 0 {
      return AdbFailed;
    }
    var bulk := ParseRows(output);
    outcome := if bulk == [] then NothingParsed else Post(bulk);
  }

  /** The messages of the inbox query's output, one per usable `Row:` line, in line order. */
  method ParseRows(output: string) returns (bulk: seq<InboxRecord>)
    ensures bulk == Seqs.FilterMap(Text.Lines(output), SyncLine)
  {
    var lines := Text.Lines(output);
    bulk := [];
    for i := 0 to |lines|
      invariant bulk == Seqs.FilterMap(lines[..i], SyncLine)
    {
      Seqs.FilterMapStep(lines, i, SyncLine);
      var line := lines[i];
      if !Text.Contains(line, "Row:") {
        continue;
      }
      var address := SyncAddress(line);
      if address.None? {
        continue;
      }
      if address.value != [] {
        bulk := bulk + [InboxRecord(address.value, MessageOf(line), DateMillis(line))];
      }
    }
    assert lines[..|lines|] == lines;
  }

  /** Every posted message has a non-empty sender and a non-empty message, and comes from a `Row:` line. */
  lemma PostedMessagesWellFormed(output: string, k: nat)
    requires k < |Seqs.FilterMap(Text.Lines(output), SyncLine)|
    ensures var r := Seqs.FilterMap(Text.Lines(output), SyncLine)[k];
            r.sender != [] && r.message != []
            && exists j :: 0 <= j < |Text.Lines(output)| && Text.Contains(Text.Lines(output)[j], "Row:")
                           && SyncLine(Text.Lines(output)[j]) == Some(r)
  {
    var lines := Text.Lines(output);
    var j :| 0 <= j < |lines| && SyncLine(lines[j]) == Some(Seqs.FilterMap(lines, SyncLine)[k]);
  }

  /** With one stop string that never occurs in `line` removed, the earliest stop is the same. */
  lemma {:induction false} EarliestStopIgnoresAbsent(line: string, a: string, b: string, p: nat)
    requires p <= |line|
    requires forall q :: p <= q <= |line| ==> !Text.OccursAt(line, b, q)
    ensures EarliestStop(line, [a, b], p) == EarliestStop(line, [a], p)
    decreases |line| - p
  {
    assert StopsAt(line, [a, b], p) <==> StopsAt(line, [a], p) by {
      if StopsAt(line, [a, b], p) {
        var t :| t in [a, b] && Text.OccursAt(line, t, p);
        assert t == a;
      }
      if StopsAt(line, [a], p) {
        assert a in [a, b];
      }
    }
    if p < |line| && !StopsAt(line, [a], p) {
      EarliestStopIgnoresAbsent(line, a, b, p + 1);
    }
  }

  /**
   * On a `Row:` line with no `, date=` in it, the script and the desktop
   * syncer (with no blocked numbers) read the same message; they differ only
   * where `, date=` follows the address, which the script keeps in the sender.
   */
  lemma SyncAgreesWithManager(line: string)
    requires Text.Contains(line, "Row:")
    requires !Text.Contains(line, ", date=")
    ensures SyncLine(line) == AdbManager.InboxLine(line, {})
  {
    if Text.Contains(line, "address=") {
      var start := Text.IndexOf(line, "address=").value + |"address="|;
      EarliestStopIgnoresAbsent(line, ", body=", ", date=", start);
    }
  }

  /** The script's other reader, which always hands back an empty list whatever `adb` prints. */
  method GetSmsFromAdb(query: Option<(int, string)>) returns (smsList: seq<InboxRecord>)
    ensures smsList == []
  {
    if query.None? || query.value.0 != 0 || query.value.1 == [] {
      return [];
    }
    return [];
  }
}
