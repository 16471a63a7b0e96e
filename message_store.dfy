/**
 * The backend's message store: the list of stored messages kept in one JSON
 * file, the single and bulk POST handlers that append to it, the read-flag
 * update, deletion, and the unread, newest-first and counter views.
 * The file itself is the `records` field of `SmsStore`; a handler that reads
 * the file, changes the list and writes it back is one method on that field.
 */
module MessageStore {
  import opened Wrappers
  import Text
  import Seqs

  /** One stored message. `id` is not unique in general (see `IdsRepeatAfterDelete`). */
  datatype Sms = Sms(id: int, sender: string, message: string, timestamp: string, read: bool)

  /** The JSON body of a single-message POST: no body at all, or an object whose keys may be missing. */
  datatype SmsRequest = NoBody | Body(sender: Option<string>, message: Option<string>)

  /** One element of a bulk POST: something that is not a JSON object, or an object whose keys may be missing. */
  datatype BulkItem = NotAnObject | Item(sender: Option<string>, message: Option<string>, timestamp: Option<string>)

  /** The JSON body of a bulk POST. */
  datatype BulkBody = NotAList | List(items: seq<BulkItem>)

  /** The counters of the statistics route (the 24-hour counter is not part of this model). */
  datatype Stats = Stats(total: nat, unread: nat, read: nat)

  // ---------------------------------------------------------------------------
  // Single insert

  /** A single POST is accepted when it has a body with both `sender` and `message`. */
  predicate Accepts(req: SmsRequest) {
    req.Body? && req.sender.Some? && req.message.Some?
  }

  /** The record a single POST appends: the next position as id, the clock's time, unread. */
  function NewSms(records: seq<Sms>, sender: string, message: string, now: string): Sms {
    Sms(|records| + 1, sender, message, now, false)
  }

  // ---------------------------------------------------------------------------
  // Bulk insert

  /**
   * The clock as the bulk loop reads it: `clock(i)` is what `datetime.now()`
   * gives while the loop is at the `i`-th element of the batch.
   */
  type Clock = nat -> string

  /** Some stored record has this sender and this text. */
  predicate HasPair(records: seq<Sms>, sender: string, message: string) {
    exists r :: r in records && r.sender == sender && r.message == message
  }

  /** A bulk element that is an object carrying both `sender` and `message`. */
  predicate IsComplete(item: BulkItem) {
    item.Item? && item.sender.Some? && item.message.Some?
  }

  /** The bulk loop appends this element to `records`: it is complete and its pair is not stored yet. */
  predicate Appends(records: seq<Sms>, item: BulkItem) {
    IsComplete(item) && !HasPair(records, item.sender.value, item.message.value)
  }

  /** The timestamp of a bulk element: its own when present and non-empty, the clock's otherwise. */
  function BulkTimestamp(ts: Option<string>, now: string): (t: string)
    ensures t == now || (ts == Some(t) && t != "")
  {
    if ts.Some? && ts.value != "" then ts.value else now
  }

  /** The record the bulk loop appends for a complete element read at time `now`. */
  function BulkRecord(records: seq<Sms>, item: BulkItem, now: string): Sms
    requires IsComplete(item)
  {
    Sms(|records| + 1, item.sender.value, item.message.value, BulkTimestamp(item.timestamp, now), false)
  }

  /** One step of the bulk loop: append the element unless it is incomplete or its pair is already stored. */
  function AddItem(records: seq<Sms>, item: BulkItem, now: string): seq<Sms> {
    if Appends(records, item) then records + [BulkRecord(records, item, now)] else records
  }

  /** The store after the bulk loop has visited every element in order, element `i` at time `clock(i)`. */
  function Merge(records: seq<Sms>, items: seq<BulkItem>, clock: Clock): seq<Sms>
    decreases |items|
  {
    if items == [] then records
    else
      var n := |items| - 1;
      AddItem(Merge(records, items[..n], clock), items[n], clock(n))
  }

  /**
   * A bulk insert only appends. Every appended record is unread, has its
   * position as id and repeats no (sender, message) pair stored before it,
   * neither an old one nor one appended earlier in the same batch.
   */
  lemma {:induction false} MergeAppends(records: seq<Sms>, items: seq<BulkItem>, clock: Clock)
    ensures var m := Merge(records, items, clock);
      |records| <= |m| && m[..|records|] == records &&
      forall i :: |records| <= i < |m| ==>
        !m[i].read && m[i].id == i + 1 && !HasPair(m[..i], m[i].sender, m[i].message)
    decreases |items|
  {
    if items != [] {
      var n := |items| - 1;
      var prev := Merge(records, items[..n], clock);
      MergeAppends(records, items[..n], clock);
      var m := Merge(records, items, clock);
      assert m == AddItem(prev, items[n], clock(n));
      assert m[..|prev|] == prev;
      assert m[..|records|] == prev[..|records|];
      forall i | |records| <= i < |prev| ensures m[..i] == prev[..i] {
      }
    } else {
      assert records[..|records|] == records;
    }
  }

  /** The positions of the batch elements the bulk loop appends, in batch order. */
  function AppendedFrom(records: seq<Sms>, items: seq<BulkItem>, clock: Clock): seq<nat>
    decreases |items|
  {
    if items == [] then []
    else
      var n := |items| - 1;
      AppendedFrom(records, items[..n], clock) + (if Appends(Merge(records, items[..n], clock), items[n]) then [n] else [])
  }

  /**
   * Where each appended record comes from: the `k`-th one is built from a
   * complete element of the batch, with that element's sender and message,
   * its own timestamp or the clock's reading at that element; the elements
   * used are distinct and in batch order, so at most one record is appended
   * per element.
   */
  lemma {:induction false} MergeSources(records: seq<Sms>, items: seq<BulkItem>, clock: Clock)
    ensures var m, src := Merge(records, items, clock), AppendedFrom(records, items, clock);
      |src| == |m| - |records| <= |items|
      && (forall k :: 0 <= k < |src| ==> src[k] < |items| && IsComplete(items[src[k]]))
      && (forall k :: 0 <= k < |src| ==>
            m[|records| + k] == Sms(|records| + k + 1, items[src[k]].sender.value, items[src[k]].message.value,
                                    BulkTimestamp(items[src[k]].timestamp, clock(src[k])), false))
      && (forall k, l :: 0 <= k < l < |src| ==> src[k] < src[l])
    decreases |items|
  {
    if items != [] {
      var n := |items| - 1;
      var prev, src0 := Merge(records, items[..n], clock), AppendedFrom(records, items[..n], clock);
      MergeSources(records, items[..n], clock);
      var m, src := Merge(records, items, clock), AppendedFrom(records, items, clock);
      assert m == AddItem(prev, items[n], clock(n));
      forall k | 0 <= k < |src0| ensures items[..n][src0[k]] == items[src0[k]] {
      }
      if Appends(prev, items[n]) {
        assert src == src0 + [n];
        assert m[|records| + |src0|] == BulkRecord(prev, items[n], clock(n));
      } else {
        assert src == src0;
      }
    }
  }

  /**
   * The skip rule, both ways: element `j` supplies a record exactly when it
   * is complete and its pair is not yet in the store the loop has built from
   * the elements before it. So of two complete elements with the same new
   * pair, the earlier one is the one stored.
   */
  lemma {:induction false} AppendedWhenNew(records: seq<Sms>, items: seq<BulkItem>, clock: Clock)
    ensures forall j :: j in AppendedFrom(records, items, clock) ==> j < |items|
    ensures forall j :: 0 <= j < |items| ==>
              (j in AppendedFrom(records, items, clock) <==> Appends(Merge(records, items[..j], clock), items[j]))
    decreases |items|
  {
    if items != [] {
      var n := |items| - 1;
      AppendedWhenNew(records, items[..n], clock);
      forall j | 0 <= j < n
        ensures items[..n][..j] == items[..j] && items[..n][j] == items[j]
      {
      }
      assert items[..n] == items[..|items| - 1];
    }
  }

  /** Once a pair is stored, a bulk insert keeps it stored. */
  lemma MergeKeepsPair(records: seq<Sms>, items: seq<BulkItem>, clock: Clock, sender: string, message: string)
    requires HasPair(records, sender, message)
    ensures HasPair(Merge(records, items, clock), sender, message)
  {
    MergeAppends(records, items, clock);
    var m := Merge(records, items, clock);
    var r :| r in records && r.sender == sender && r.message == message;
    var k :| 0 <= k < |records| && records[k] == r;
    assert m[k] == r;
  }

  /** Every complete element's pair is in the store after the bulk insert. */
  predicate Covers(records: seq<Sms>, items: seq<BulkItem>) {
    forall i :: 0 <= i < |items| && IsComplete(items[i]) ==>
      HasPair(records, items[i].sender.value, items[i].message.value)
  }

  lemma {:induction false} MergeCovers(records: seq<Sms>, items: seq<BulkItem>, clock: Clock)
    ensures Covers(Merge(records, items, clock), items)
    decreases |items|
  {
    if items != [] {
      var n := |items| - 1;
      var prev := Merge(records, items[..n], clock);
      MergeCovers(records, items[..n], clock);
      var m := Merge(records, items, clock);
      assert m == AddItem(prev, items[n], clock(n));
      if Appends(prev, items[n]) {
        assert m[|prev|] in m;
      }
      forall i | 0 <= i < n && IsComplete(items[i])
        ensures HasPair(m, items[i].sender.value, items[i].message.value)
      {
        assert items[..n][i] == items[i];
        var r :| r in prev && r.sender == items[i].sender.value && r.message == items[i].message.value;
        assert r in m;
      }
    }
  }

  /** A batch whose every pair is already stored adds nothing. */
  lemma {:induction false} MergeCovered(records: seq<Sms>, items: seq<BulkItem>, clock: Clock)
    requires Covers(records, items)
    ensures Merge(records, items, clock) == records
    decreases |items|
  {
    if items != [] {
      var n := |items| - 1;
      assert Covers(records, items[..n]) by {
        forall i | 0 <= i < n && IsComplete(items[..n][i])
          ensures HasPair(records, items[..n][i].sender.value, items[..n][i].message.value)
        {
          assert items[..n][i] == items[i];
        }
      }
      MergeCovered(records, items[..n], clock);
      assert !Appends(records, items[n]);
    }
  }

  /** Replaying the same batch adds nothing, whatever the clock reads the second time. */
  lemma MergeReplay(records: seq<Sms>, items: seq<BulkItem>, clock: Clock, later: Clock)
    ensures Merge(Merge(records, items, clock), items, later) == Merge(records, items, clock)
  {
    MergeCovers(records, items, clock);
    MergeCovered(Merge(records, items, clock), items, later);
  }

  // ---------------------------------------------------------------------------
  // Read flag and deletion

  /** The index of the first record with the given id. */
  function FirstWithId(records: seq<Sms>, id: int): (k: Option<nat>)
    ensures k.Some? ==> k.value < |records| && records[k.value].id == id
                        && forall j :: 0 <= j < k.value ==> records[j].id != id
    ensures k.None? ==> forall j :: 0 <= j < |records| ==> records[j].id != id
  {
    if records == [] then None
    else if records[0].id == id then Some(0)
    else match FirstWithId(records[1..], id)
      case None => None
      case Some(k) => Some(k + 1)
  }

  /**
   * The store after setting the read flag of the first record with the id to
   * `read`: every other record and every other field stay as they were.
   */
  function MarkRead(records: seq<Sms>, id: int, read: bool): (r: seq<Sms>)
    ensures |r| == |records|
    ensures FirstWithId(records, id).None? ==> r == records
    ensures FirstWithId(records, id).Some? ==>
      var k := FirstWithId(records, id).value;
      r[k] == records[k].(read := read) && forall j :: 0 <= j < |r| && j != k ==> r[j] == records[j]
  {
    match FirstWithId(records, id)
    case None => records
    case Some(k) => records[k := records[k].(read := read)]
  }

  /** Setting the flag twice to the same value is the same as setting it once. */
  lemma MarkReadIdempotent(records: seq<Sms>, id: int, read: bool)
    ensures MarkRead(MarkRead(records, id, read), id, read) == MarkRead(records, id, read)
  {
    var once := MarkRead(records, id, read);
    match FirstWithId(records, id)
    case None =>
    case Some(k) =>
      assert forall j :: 0 <= j < |once| ==> once[j].id == records[j].id;
      assert FirstWithId(once, id) == Some(k);
  }

  /** The test "carries this id". */
  function HasId(id: int): Sms -> bool {
    (x: Sms) => x.id == id
  }

  /** The test "carries another id". */
  function OtherId(id: int): Sms -> bool {
    (x: Sms) => x.id != id
  }

  /** The store without any record carrying the id; the others keep their order. */
  function WithoutId(records: seq<Sms>, id: int): (r: seq<Sms>)
    ensures forall x :: x in r <==> x in records && x.id != id
    ensures |r| == |records| - Seqs.Count(records, HasId(id))
  {
    Seqs.CountSplit(records, HasId(id), OtherId(id));
    Seqs.Filter(records, OtherId(id))
  }

  // ---------------------------------------------------------------------------
  // Views

  predicate IsRead(x: Sms) {
    x.read
  }

  predicate IsUnread(x: Sms) {
    !x.read
  }

  /** The unread view: exactly the records whose flag is false. */
  function Unread(records: seq<Sms>): (r: seq<Sms>)
    ensures forall x :: x in r <==> x in records && !x.read
    ensures |r| == Seqs.Count(records, IsUnread)
  {
    var f := Seqs.Filter(records, IsUnread);
    var r := Seqs.Reversed(f);
    assert forall x :: x in r <==> x in f by {
      forall x ensures x in r <==> x in f {
        assert x in r <==> x in multiset(r);
        assert x in f <==> x in multiset(f);
      }
    }
    r
  }

  /**
   * The unread view lists records in reverse store order: the unread records
   * of a later part of the store come before those of an earlier part.
   */
  lemma UnreadReverses(earlier: seq<Sms>, later: seq<Sms>)
    ensures Unread(earlier + later) == Unread(later) + Unread(earlier)
  {
    Seqs.FilterAppend(earlier, later, IsUnread);
    Seqs.ReversedAppend(Seqs.Filter(earlier, IsUnread), Seqs.Filter(later, IsUnread));
  }

  /** The counters: unread are the records whose flag is false, read the rest. */
  function GetStats(records: seq<Sms>): (s: Stats)
    ensures s.total == |records| && s.read + s.unread == s.total
    ensures s.unread == |Unread(records)|
    ensures s.read == Seqs.Count(records, IsRead)
  {
    var unread := Seqs.Count(records, IsUnread);
    Seqs.CountSplit(records, IsRead, IsUnread);
    Stats(|records|, unread, |records| - unread)
  }

  /** `a` comes strictly before `b` in the newest-first view: its timestamp is the greater string. */
  predicate NewerFirst(a: Sms, b: Sms) {
    Text.StrLess(b.timestamp, a.timestamp)
  }

  lemma NewerFirstIsOrder()
    ensures Seqs.Asymmetric(NewerFirst)
    ensures Seqs.NegativelyTransitive(NewerFirst)
  {
    forall a: Sms, b: Sms ensures NewerFirst(a, b) ==> !NewerFirst(b, a) {
      Text.StrLessAsymmetric(b.timestamp, a.timestamp);
    }
    forall a: Sms, b: Sms, c: Sms
      ensures !NewerFirst(b, a) && !NewerFirst(c, b) ==> !NewerFirst(c, a)
    {
      Text.StrLessTotal(a.timestamp, b.timestamp);
      Text.StrLessTotal(b.timestamp, c.timestamp);
      Text.StrLessTransitive(c.timestamp, b.timestamp, a.timestamp);
      Text.StrLessAsymmetric(c.timestamp, a.timestamp);
      Text.StrLessAsymmetric(a.timestamp, a.timestamp);
    }
  }

  /**
   * The list route: all records, ordered by timestamp string, greatest first;
   * records with equal timestamps keep their stored order.
   */
  function NewestFirst(records: seq<Sms>): (r: seq<Sms>)
    ensures multiset(r) == multiset(records)
    ensures forall i, j :: 0 <= i < j < |r| ==> !Text.StrLess(r[i].timestamp, r[j].timestamp)
  {
    var r := Seqs.SortBy(records, NewerFirst);
    NewerFirstIsOrder();
    Seqs.SortBySorted(records, NewerFirst);
    assert forall i, j :: 0 <= i < j < |r| ==> !NewerFirst(r[j], r[i]) by {
      forall i, j | 0 <= i < j < |r| ensures !NewerFirst(r[j], r[i]) {
        Seqs.SortedPairwise(r, NewerFirst, i, j);
      }
    }
    r
  }

  /** The test "has the same timestamp as `x`". */
  function SameTimestamp(x: Sms): Sms -> bool {
    (y: Sms) => y.timestamp == x.timestamp
  }

  /** The sort is stable: records with equal timestamps keep their stored order in the list route. */
  lemma NewestFirstKeepsTies(records: seq<Sms>, x: Sms)
    ensures Seqs.Filter(NewestFirst(records), SameTimestamp(x)) == Seqs.Filter(records, SameTimestamp(x))
  {
    NewerFirstIsOrder();
    Seqs.SortByStable(records, NewerFirst, x);
    forall y: Sms ensures Seqs.Tied(NewerFirst, x)(y) == SameTimestamp(x)(y) {
      Text.StrLessTotal(x.timestamp, y.timestamp);
      Text.StrLessAsymmetric(x.timestamp, x.timestamp);
    }
    Seqs.FilterSame(NewestFirst(records), Seqs.Tied(NewerFirst, x), SameTimestamp(x));
    Seqs.FilterSame(records, Seqs.Tied(NewerFirst, x), SameTimestamp(x));
  }

  // ---------------------------------------------------------------------------
  // Ids

  /** Every record's id is its 1-based position: the case while nothing has been deleted. */
  predicate IdsArePositions(records: seq<Sms>) {
    forall i :: 0 <= i < |records| ==> records[i].id == i + 1
  }

  /** Inserts keep ids equal to positions, so without deletions ids are unique. */
  lemma InsertsKeepPositions(records: seq<Sms>, items: seq<BulkItem>, sender: string, message: string, now: string, clock: Clock)
    requires IdsArePositions(records)
    ensures IdsArePositions(records + [NewSms(records, sender, message, now)])
    ensures IdsArePositions(Merge(records, items, clock))
  {
    MergeAppends(records, items, clock);
    var m := Merge(records, items, clock);
    forall i | 0 <= i < |records| ensures m[i].id == i + 1 {
      assert m[i] == m[..|records|][i];
    }
  }

  /** After a deletion the next insert can reuse an id that is still stored. */
  lemma IdsRepeatAfterDelete()
    ensures var before := [Sms(1, "A", "x", "t1", false), Sms(2, "B", "y", "t2", false)];
      var after := WithoutId(before, 1);
      var inserted := after + [NewSms(after, "C", "z", "t3")];
      |inserted| == 2 && inserted[0].id == inserted[1].id == 2
  {
    var before := [Sms(1, "A", "x", "t1", false), Sms(2, "B", "y", "t2", false)];
    var after := WithoutId(before, 1);
    assert Sms(2, "B", "y", "t2", false) in after;
    assert |after| == 1 by {
      assert Seqs.Count(before, HasId(1)) == 1;
    }
    assert after[0] == Sms(2, "B", "y", "t2", false);
  }

  // ---------------------------------------------------------------------------
  // The handlers that change the file

  class SmsStore {
    /** The contents of the storage file. */
    var records: seq<Sms>

    /** The store as loaded from the file (`[]` when there is no file). */
    constructor (saved: seq<Sms>)
      ensures records == saved
    {
      records := saved;
    }

    /**
     * Single POST: 400 and no change when the body or one of the two keys is
     * missing; otherwise 201 and the new record appended at the end.
     */
    method ReceiveSms(req: SmsRequest, now: string) returns (status: int, created: Option<Sms>)
      modifies this
      ensures !Accepts(req) ==> status == 400 && created == None && records == old(records)
      ensures Accepts(req) ==>
        && status == 201
        && created == Some(NewSms(old(records), req.sender.value, req.message.value, now))
        && records == old(records) + [created.value]
    {
      if !Accepts(req) {
        return 400, None;
      }
      var sms := NewSms(records, req.sender.value, req.message.value, now);
      records := records + [sms];
      return 201, Some(sms);
    }

    /**
     * Bulk POST: 400 and no change for a body that is not a list; otherwise
     * 201, the store extended by the loop over the elements (element `i`
     * seeing the time `clock(i)`), `added` the number of records appended and
     * `totalReceived` the number of elements sent.
     */
    method ReceiveBulkSms(body: BulkBody, clock: Clock) returns (status: int, added: nat, totalReceived: nat)
      modifies this
      ensures body.NotAList? ==> status == 400 && records == old(records)
      ensures body.List? ==>
        && status == 201 && records == Merge(old(records), body.items, clock)
        && added == |records| - |old(records)| && totalReceived == |body.items|
    {
      if body.NotAList? {
        return 400, 0, 0;
      }
      var items := body.items;
      var list := records;
      added := 0;
      for i := 0 to |items|
        invariant list == Merge(old(records), items[..i], clock)
        invariant |list| == |old(records)| + added
      {
        var item := items[i];
        assert items[..i + 1][..i] == items[..i];
        if item.Item? && item.sender.Some? && item.message.Some? {
          var duplicate := HasPair(list, item.sender.value, item.message.value);
          if !duplicate {
            var sms := Sms(|list| + 1, item.sender.value, item.message.value, BulkTimestamp(item.timestamp, clock(i)), false);
            list := list + [sms];
            added := added + 1;
          }
        }
      }
      assert items[..|items|] == items;
      records := list;
      return 201, added, |items|;
    }

    /**
     * Read-flag route: the requested flag (true when the body gives none) is
     * set on the first record with the id and the answer is 200; with no such
     * record the answer is 404 and nothing changes.
     */
    method MarkAsRead(id: int, requested: Option<bool>) returns (status: int)
      modifies this
      ensures records == MarkRead(old(records), id, requested.GetOr(true))
      ensures status == if FirstWithId(old(records), id).Some? then 200 else 404
    {
      var readStatus := requested.GetOr(true);
      var i := 0;
      while i < |records|
        invariant 0 <= i <= |records|
        invariant forall j :: 0 <= j < i ==> records[j].id != id
        invariant records == old(records)
      {
        if records[i].id == id {
          assert FirstWithId(records, id) == Some(i);
          records := records[i := records[i].(read := readStatus)];
          return 200;
        }
        i := i + 1;
      }
      return 404;
    }

    /** Delete route: every record with the id goes, the rest stay in order; always 200. */
    method DeleteSms(id: int) returns (status: int)
      modifies this
      ensures records == WithoutId(old(records), id) && status == 200
    {
      records := WithoutId(records, id);
      return 200;
    }
  }
}
