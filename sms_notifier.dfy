/**
 * The desktop notifier: every few seconds it fetches the message list, shows
 * a notification for each message whose id is above the highest id it has
 * seen, and remembers that high-water mark in a small state file. The HTTP
 * call and the notification toolkit are left out: a check is given the
 * server's reply, and the notifications it shows are recorded in order.
 */
module SmsNotifier {
  import Text
  import Seqs

  /** The state file `last_checked.json` as the notifier finds it. */
  datatype StateFile = Missing | NoLastId | LastId(id: int) | Unreadable

  /** A message as `/api/sms` lists it. */
  datatype ListedSms = ListedSms(id: int, sender: string, message: string)

  /** The reply's body: not JSON, JSON without `sms_list`, or the list. */
  datatype Body = NotJson | NoList | SmsList(items: seq<ListedSms>)

  /** What fetching `/api/sms` ends with. */
  datatype Reply = ConnectionFailed | Response(status: int, body: Body)

  /** A desktop notification. */
  datatype Notification = Notification(title: string, text: string)

  /** The high-water mark a readable state file gives; 0 when there is no file or no `last_id`. */
  function LoadLastChecked(file: StateFile): (last: int)
    requires !file.Unreadable?
    ensures file.LastId? ==> last == file.id
    ensures file.Missing? || file.NoLastId? ==> last == 0
  {
    match file
    case LastId(id) => id
    case _ => 0
  }

  /** The notification for one message: its sender in the title, its text shortened. */
  function Notify(sms: ListedSms): (n: Notification)
    ensures n.title == "SMS: " + sms.sender
    ensures |n.text| <= Text.ShortLimit + 3
    ensures |sms.message| <= Text.ShortLimit ==> n.text == sms.message
    ensures |sms.message| > Text.ShortLimit ==> n.text == sms.message[..Text.ShortLimit] + "..."
  {
    Notification("SMS: " + sms.sender, Text.Shorten(sms.message))
  }

  // ---------------------------------------------------------------------------
  // The scan, as functions

  /** The messages of `items` that are notified when the scan starts from `mark`. */
  function Fresh(items: seq<ListedSms>, mark: int): (r: seq<ListedSms>)
    ensures |r| <= |items|
    ensures forall k :: 0 <= k < |r| ==> r[k].id > mark && r[k] in items
  {
    if items == [] then []
    else if items[0].id > mark then [items[0]] + Fresh(items[1..], items[0].id)
    else Fresh(items[1..], mark)
  }

  /** The mark after scanning `items` from `mark`. */
  function HighWater(items: seq<ListedSms>, mark: int): int {
    if items == [] then mark
    else HighWater(items[1..], if items[0].id > mark then items[0].id else mark)
  }

  /** The notifications for a run of messages, in order. */
  function NotesFor(items: seq<ListedSms>): (r: seq<Notification>)
    ensures |r| == |items|
  {
    if items == [] then [] else [Notify(items[0])] + NotesFor(items[1..])
  }

  /** The mark ends as the largest of its start and all ids listed. */
  lemma {:induction false} HighWaterIsMax(items: seq<ListedSms>, mark: int)
    ensures HighWater(items, mark) >= mark
    ensures forall k :: 0 <= k < |items| ==> HighWater(items, mark) >= items[k].id
    ensures HighWater(items, mark) == mark || exists k :: 0 <= k < |items| && HighWater(items, mark) == items[k].id
  {
    if items != [] {
      var next := if items[0].id > mark then items[0].id else mark;
      HighWaterIsMax(items[1..], next);
      forall k | 0 < k < |items| ensures HighWater(items, mark) >= items[k].id {
        assert items[k] == items[1..][k - 1];
      }
      if HighWater(items, mark) != mark && HighWater(items, mark) != next {
        var k :| 0 <= k < |items[1..]| && HighWater(items[1..], next) == items[1..][k].id;
        assert items[k + 1] == items[1..][k];
      }
    }
  }

  /** Notified ids strictly increase: an older unseen message listed after a newer one is skipped. */
  lemma {:induction false} FreshIncreasing(items: seq<ListedSms>, mark: int, i: nat, j: nat)
    requires i < j < |Fresh(items, mark)|
    ensures Fresh(items, mark)[i].id < Fresh(items, mark)[j].id
  {
    var f := Fresh(items, mark);
    if items[0].id > mark {
      var rest := Fresh(items[1..], items[0].id);
      assert f == [items[0]] + rest;
      assert f[j] == rest[j - 1];
      if i == 0 {
        assert rest[j - 1].id > items[0].id;
      } else {
        assert f[i] == rest[i - 1];
        FreshIncreasing(items[1..], items[0].id, i - 1, j - 1);
      }
    } else {
      assert f == Fresh(items[1..], mark);
      FreshIncreasing(items[1..], mark, i, j);
    }
  }

  /** The mark after scanning `a` then `b` is the mark after scanning `b` from the mark `a` left. */
  lemma {:induction false} HighWaterAppend(a: seq<ListedSms>, b: seq<ListedSms>, mark: int)
    ensures HighWater(a + b, mark) == HighWater(b, HighWater(a, mark))
  {
    if a == [] {
      assert a + b == b;
    } else {
      assert (a + b)[0] == a[0] && (a + b)[1..] == a[1..] + b;
      HighWaterAppend(a[1..], b, if a[0].id > mark then a[0].id else mark);
    }
  }

  /** Scanning `a` then `b` notifies what scanning `a` does, then what scanning `b` from the mark `a` left does. */
  lemma {:induction false} FreshAppend(a: seq<ListedSms>, b: seq<ListedSms>, mark: int)
    ensures Fresh(a + b, mark) == Fresh(a, mark) + Fresh(b, HighWater(a, mark))
  {
    if a == [] {
      assert a + b == b;
    } else {
      var next := if a[0].id > mark then a[0].id else mark;
      assert (a + b)[0] == a[0] && (a + b)[1..] == a[1..] + b;
      FreshAppend(a[1..], b, next);
      assert HighWater(a, mark) == HighWater(a[1..], next);
      if a[0].id > mark {
        assert Fresh(a + b, mark) == [a[0]] + Fresh(a[1..] + b, next);
        assert Fresh(a, mark) == [a[0]] + Fresh(a[1..], next);
        Seqs.AppendAssociative([a[0]], Fresh(a[1..], next), Fresh(b, HighWater(a, mark)));
      } else {
        assert Fresh(a + b, mark) == Fresh(a[1..] + b, next);
        assert Fresh(a, mark) == Fresh(a[1..], next);
      }
    }
  }

  /**
   * The scan one message at a time: the message at position `k` is notified
   * exactly when its id is above the mark left by the messages before it,
   * and the mark then becomes its id. Starting from no message, these steps
   * give `Fresh` and `HighWater` of the whole list.
   */
  lemma FreshStep(items: seq<ListedSms>, mark: int, k: nat)
    requires k < |items|
    ensures var before := HighWater(items[..k], mark);
            Fresh(items[..k + 1], mark) == Fresh(items[..k], mark) + (if items[k].id > before then [items[k]] else [])
            && HighWater(items[..k + 1], mark) == if items[k].id > before then items[k].id else before
  {
    assert items[..k + 1] == items[..k] + [items[k]];
    FreshAppend(items[..k], [items[k]], mark);
    HighWaterAppend(items[..k], [items[k]], mark);
    assert [items[k]][1..] == [];
  }

  /** An unseen message listed after one with a higher id is never notified, wherever the two stand. */
  lemma OlderBehindNewerSkipped(items: seq<ListedSms>, mark: int, i: nat, j: nat)
    requires i < j < |items| && items[i].id > items[j].id
    ensures Fresh(items[..j + 1], mark) == Fresh(items[..j], mark)
  {
    FreshStep(items, mark, j);
    HighWaterIsMax(items[..j], mark);
    assert items[..j][i] == items[i];
  }

  /** Something is notified exactly when the mark rises. */
  lemma {:induction false} FreshIffRaised(items: seq<ListedSms>, mark: int)
    ensures Fresh(items, mark) != [] <==> HighWater(items, mark) > mark
  {
    if items != [] {
      if items[0].id > mark {
        HighWaterIsMax(items[1..], items[0].id);
      } else {
        FreshIffRaised(items[1..], mark);
      }
    }
  }

  /** A second scan of the same list from the mark the first one left notifies nothing. */
  lemma NothingTwice(items: seq<ListedSms>, mark: int)
    ensures Fresh(items, HighWater(items, mark)) == []
  {
    var hw := HighWater(items, mark);
    HighWaterIsMax(items, mark);
    FreshIffRaised(items, hw);
    HighWaterIsMax(items, hw);
  }

  /**
   * The loop over the listed messages, from the mark `start`: the
   * notifications it shows, the mark it ends with and how many it notified.
   */
  method Scan(items: seq<ListedSms>, start: int) returns (notes: seq<Notification>, lastCheckedId: int, newSmsCount: nat)
    ensures notes == NotesFor(Fresh(items, start))
    ensures lastCheckedId == HighWater(items, start)
    ensures newSmsCount == |Fresh(items, start)|
  {
    notes, lastCheckedId, newSmsCount := [], start, 0;
    for i := 0 to |items|
      invariant NotesFor(Fresh(items, start)) == notes + NotesFor(Fresh(items[i..], lastCheckedId))
      invariant HighWater(items, start) == HighWater(items[i..], lastCheckedId)
      invariant newSmsCount + |Fresh(items[i..], lastCheckedId)| == |Fresh(items, start)|
    {
      assert items[i..][1..] == items[i + 1..];
      var sms := items[i];
      if sms.id > lastCheckedId {
        notes := notes + [Notify(sms)];
        newSmsCount := newSmsCount + 1;
        lastCheckedId := sms.id;
      }
    }
    assert items[|items|..] == [];
  }

  // ---------------------------------------------------------------------------
  // The notifier

  class Notifier {
    /** The persisted state file. */
    var stateFile: StateFile
    /** The notifications shown so far, oldest first. */
    var shown: seq<Notification>

    constructor (file: StateFile)
      ensures stateFile == file && shown == []
    {
      stateFile := file;
      shown := [];
    }

    /**
     * One check against the server's reply: true exactly when the server
     * answered 200 with a JSON body (and the state file could be read). The
     * new messages are notified and the raised mark saved only if something
     * was notified.
     */
    method CheckNewSms(reply: Reply) returns (ok: bool)
      modifies this
      ensures ok <==> reply.Response? && reply.status == 200 && !reply.body.NotJson? && !old(stateFile).Unreadable?
      ensures !ok ==> stateFile == old(stateFile) && shown == old(shown)
      ensures ok ==>
        var items := if reply.body.SmsList? then reply.body.items else [];
        var mark := LoadLastChecked(old(stateFile));
        shown == old(shown) + NotesFor(Fresh(items, mark))
        && stateFile == if Fresh(items, mark) == [] then old(stateFile) else LastId(HighWater(items, mark))
    {
      if !reply.Response? || reply.status != 200 || reply.body.NotJson? || stateFile.Unreadable? {
        return false;
      }
      var items := if reply.body.SmsList? then reply.body.items else [];
      var start := LoadLastChecked(stateFile);
      var notes, lastCheckedId, newSmsCount := Scan(items, start);
      shown := shown + notes;
      if newSmsCount > 0 {
        stateFile := LastId(lastCheckedId);
      }
      return true;
    }
  }
}
