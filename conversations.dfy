/**
 * The React front end's message list (`App.jsx`): messages grouped into one
 * conversation per sender, each conversation in time order with its last
 * message and unread count, conversations newest first, the search filter
 * and the selected conversation. Message timestamps are the numbers
 * `new Date(timestamp)` yields.
 */
module Conversations {
  import opened Wrappers
  import Text
  import Seqs

  /** A message as the front end receives it. */
  datatype Message = Message(id: int, sender: string, message: string, time: int, read: bool)

  /** One row of the sidebar. */
  datatype Conversation = Conversation(sender: string, messages: seq<Message>, lastMessage: Message, unreadCount: nat)

  /** The test "sent by `s`". */
  function FromSender(s: string): Message -> bool {
    (m: Message) => m.sender == s
  }

  predicate IsUnread(m: Message) {
    !m.read
  }

  function SenderOf(c: Conversation): string {
    c.sender
  }

  // ---------------------------------------------------------------------------
  // Grouping

  /** The senders of `messages` without repeats, in order of first appearance. */
  function Senders(messages: seq<Message>): (r: seq<string>)
    ensures |r| <= |messages|
    ensures forall i, j :: 0 <= i < j < |r| ==> r[i] != r[j]
  {
    if messages == [] then []
    else
      var init := Senders(messages[..|messages| - 1]);
      var s := messages[|messages| - 1].sender;
      if s in init then init else init + [s]
  }

  /** A sender is listed exactly when some message comes from it. */
  lemma {:induction false} SendersListed(messages: seq<Message>, s: string)
    ensures s in Senders(messages) <==> exists k :: 0 <= k < |messages| && messages[k].sender == s
  {
    if messages != [] {
      var init := messages[..|messages| - 1];
      SendersListed(init, s);
      if exists k :: 0 <= k < |init| && init[k].sender == s {
        var k :| 0 <= k < |init| && init[k].sender == s;
        assert messages[k] == init[k];
      }
      if exists k :: 0 <= k < |messages| && messages[k].sender == s {
        var k :| 0 <= k < |messages| && messages[k].sender == s;
        if k < |init| {
          assert init[k] == messages[k];
        }
      }
    }
  }

  /** The messages of `messages` from each of its senders. */
  function GroupMap(messages: seq<Message>): map<string, seq<Message>> {
    map s | s in Senders(messages) :: Seqs.Filter(messages, FromSender(s))
  }

  /** A sender with no message in `messages` has an empty group. */
  lemma GroupOfAbsent(messages: seq<Message>, s: string)
    requires s !in Senders(messages)
    ensures Seqs.Filter(messages, FromSender(s)) == []
  {
    SendersListed(messages, s);
  }

  /** One more message joins its sender's group and no other. */
  lemma GroupStep(messages: seq<Message>, i: nat, s: string)
    requires i < |messages|
    ensures Seqs.Filter(messages[..i + 1], FromSender(s))
            == Seqs.Filter(messages[..i], FromSender(s)) + (if messages[i].sender == s then [messages[i]] else [])
  {
    assert messages[..i + 1][..i] == messages[..i];
  }

  /** Every listed sender's group is non-empty. */
  lemma GroupsNonEmpty(messages: seq<Message>)
    ensures forall s :: s in GroupMap(messages) ==> GroupMap(messages)[s] != []
  {
    forall s | s in Senders(messages) ensures Seqs.Filter(messages, FromSender(s)) != [] {
      SendersListed(messages, s);
      var k :| 0 <= k < |messages| && messages[k].sender == s;
      assert messages[k] in messages;
    }
  }

  /** A map keyed by the senders and holding each sender's messages is the grouping. */
  lemma IsGroupMap(messages: seq<Message>, grouped: map<string, seq<Message>>)
    requires forall s :: s in grouped <==> s in Senders(messages)
    requires forall s :: s in grouped ==> grouped[s] == Seqs.Filter(messages, FromSender(s))
    ensures grouped == GroupMap(messages)
  {
  }

  /** One more message adds its sender at the end of the senders, unless it is already there. */
  lemma SendersStep(messages: seq<Message>, i: nat)
    requires i < |messages|
    ensures Senders(messages[..i + 1]) ==
            if messages[i].sender in Senders(messages[..i]) then Senders(messages[..i])
            else Senders(messages[..i]) + [messages[i].sender]
  {
    assert messages[..i + 1][..i] == messages[..i];
  }

  /**
   * The grouping loop: one entry per sender, created at the sender's first
   * message, holding that sender's messages in list order.
   */
  method GroupBySender(messages: seq<Message>) returns (keys: seq<string>, grouped: map<string, seq<Message>>)
    ensures keys == Senders(messages)
    ensures grouped == GroupMap(messages)
  {
    keys, grouped := [], map[];
    for i := 0 to |messages|
      invariant keys == Senders(messages[..i])
      invariant forall s :: s in grouped <==> s in keys
      invariant forall s :: s in grouped ==> grouped[s] == Seqs.Filter(messages[..i], FromSender(s))
    {
      var msg := messages[i];
      SendersStep(messages, i);
      if msg.sender !in grouped {
        GroupOfAbsent(messages[..i], msg.sender);
        grouped := grouped[msg.sender := []];
        keys := keys + [msg.sender];
      }
      forall s | s in grouped {
        GroupStep(messages, i, s);
      }
      grouped := grouped[msg.sender := grouped[msg.sender] + [msg]];
    }
    assert messages[..|messages|] == messages;
    IsGroupMap(messages, grouped);
  }

  // ---------------------------------------------------------------------------
  // Summaries and ordering

  /** `a` is strictly older than `b`. */
  predicate Earlier(a: Message, b: Message) {
    a.time < b.time
  }

  /** `a`'s last message is strictly newer than `b`'s. */
  predicate NewerLast(a: Conversation, b: Conversation) {
    b.lastMessage.time < a.lastMessage.time
  }

  /** The sidebar row for one sender's messages: sorted by time, with the last message and the unread count. */
  function Summary(sender: string, msgs: seq<Message>): (c: Conversation)
    requires msgs != []
    ensures c.sender == sender && multiset(c.messages) == multiset(msgs) && c.messages != []
    ensures c.lastMessage == c.messages[|c.messages| - 1]
    ensures c.unreadCount == Seqs.Count(msgs, IsUnread)
  {
    var sorted := Seqs.SortBy(msgs, Earlier);
    Seqs.CountPermutation(sorted, msgs, IsUnread);
    Conversation(sender, sorted, sorted[|sorted| - 1], Seqs.Count(sorted, IsUnread))
  }

  /** The rows for `keys`, in key order. */
  function Summaries(keys: seq<string>, grouped: map<string, seq<Message>>): (r: seq<Conversation>)
    requires forall s :: s in keys ==> s in grouped && grouped[s] != []
    ensures |r| == |keys|
  {
    if keys == [] then [] else [Summary(keys[0], grouped[keys[0]])] + Summaries(keys[1..], grouped)
  }

  /** The `i`-th row summarises the `i`-th key's group. */
  lemma {:induction false} SummariesAt(keys: seq<string>, grouped: map<string, seq<Message>>, i: nat)
    requires forall s :: s in keys ==> s in grouped && grouped[s] != []
    requires i < |keys|
    ensures Summaries(keys, grouped)[i] == Summary(keys[i], grouped[keys[i]])
  {
    if i > 0 {
      SummariesAt(keys[1..], grouped, i - 1);
    }
  }

  /** The rows before ordering: one per sender, in order of first appearance. */
  function Rows(messages: seq<Message>): (r: seq<Conversation>)
    ensures |r| == |Senders(messages)|
  {
    GroupsNonEmpty(messages);
    Summaries(Senders(messages), GroupMap(messages))
  }

  /** The row of the `i`-th sender summarises exactly that sender's messages. */
  lemma RowAt(messages: seq<Message>, i: nat)
    requires i < |Senders(messages)|
    ensures Seqs.Filter(messages, FromSender(Senders(messages)[i])) != []
    ensures Rows(messages)[i] == Summary(Senders(messages)[i], Seqs.Filter(messages, FromSender(Senders(messages)[i])))
  {
    GroupsNonEmpty(messages);
    assert Senders(messages)[i] in GroupMap(messages);
    SummariesAt(Senders(messages), GroupMap(messages), i);
  }

  /** The `conversations` memo: the rows, newest last message first. */
  function AllConversations(messages: seq<Message>): seq<Conversation> {
    Seqs.SortBy(Rows(messages), NewerLast)
  }

  /** The memo as the component computes it: group, summarise, sort. */
  method Conversations(messages: seq<Message>) returns (convs: seq<Conversation>)
    ensures convs == AllConversations(messages)
  {
    var keys, grouped := GroupBySender(messages);
    GroupsNonEmpty(messages);
    convs := Seqs.SortBy(Summaries(keys, grouped), NewerLast);
  }

  /** Each row is the summary of one sender's messages. */
  lemma RowIsSummary(messages: seq<Message>, j: nat)
    requires j < |AllConversations(messages)|
    ensures var c := AllConversations(messages)[j];
            && c.sender in Senders(messages)
            && Seqs.Filter(messages, FromSender(c.sender)) != []
            && c == Summary(c.sender, Seqs.Filter(messages, FromSender(c.sender)))
  {
    var rows := Rows(messages);
    var c := AllConversations(messages)[j];
    assert c in multiset(rows);
    var i :| 0 <= i < |rows| && rows[i] == c;
    RowAt(messages, i);
  }

  /** There is one row per sender. */
  lemma OneRowPerSender(messages: seq<Message>)
    ensures |AllConversations(messages)| == |Senders(messages)|
    ensures Seqs.KeysDistinct(AllConversations(messages), SenderOf)
  {
    var keys := Senders(messages);
    var rows := Rows(messages);
    assert Seqs.KeysDistinct(rows, SenderOf) by {
      forall i, j | 0 <= i < j < |rows| ensures SenderOf(rows[i]) != SenderOf(rows[j]) {
        RowAt(messages, i);
        RowAt(messages, j);
      }
    }
    Seqs.SortByKeysDistinct(rows, NewerLast, SenderOf);
  }

  /** The `i`-th sender's row appears among the ordered rows. */
  lemma RowListed(messages: seq<Message>, i: nat)
    requires i < |Senders(messages)|
    ensures exists j :: 0 <= j < |AllConversations(messages)| && AllConversations(messages)[j] == Rows(messages)[i]
  {
    var c := Rows(messages)[i];
    assert c in multiset(Rows(messages));
    assert c in multiset(AllConversations(messages));
  }

  /** Every sender has a row holding exactly its messages. */
  lemma SenderRow(messages: seq<Message>, s: string) returns (j: nat)
    requires s in Senders(messages)
    ensures j < |AllConversations(messages)|
    ensures AllConversations(messages)[j].sender == s
    ensures multiset(AllConversations(messages)[j].messages) == multiset(Seqs.Filter(messages, FromSender(s)))
  {
    var keys := Senders(messages);
    var i :| 0 <= i < |keys| && keys[i] == s;
    RowAt(messages, i);
    RowListed(messages, i);
    j :| 0 <= j < |AllConversations(messages)| && AllConversations(messages)[j] == Rows(messages)[i];
  }

  /** Every message lands in the row of its sender. */
  lemma MessageInItsRow(messages: seq<Message>, k: nat) returns (j: nat)
    requires k < |messages|
    ensures j < |AllConversations(messages)|
    ensures AllConversations(messages)[j].sender == messages[k].sender
    ensures messages[k] in AllConversations(messages)[j].messages
  {
    var s := messages[k].sender;
    SendersListed(messages, s);
    j := SenderRow(messages, s);
    var c := AllConversations(messages)[j];
    assert messages[k] in Seqs.Filter(messages, FromSender(s));
    assert messages[k] in multiset(c.messages);
  }

  /** A summary holds every message it summarises. */
  lemma SummaryHolds(sender: string, msgs: seq<Message>, m: Message)
    requires msgs != [] && m in msgs
    ensures m in Summary(sender, msgs).messages
  {
    assert m in multiset(msgs);
  }

  /** A row holds exactly its sender's messages and counts the unread ones among them. */
  lemma RowContents(messages: seq<Message>, j: nat)
    requires j < |AllConversations(messages)|
    ensures var c := AllConversations(messages)[j];
            && multiset(c.messages) == multiset(Seqs.Filter(messages, FromSender(c.sender)))
            && c.unreadCount == Seqs.Count(Seqs.Filter(messages, FromSender(c.sender)), IsUnread)
  {
    RowIsSummary(messages, j);
  }

  /** Comparing message times is a strict order in the sense sorting needs. */
  lemma EarlierIsOrder()
    ensures Seqs.Asymmetric(Earlier) && Seqs.NegativelyTransitive(Earlier)
  {
  }

  /** A summary's messages run oldest first, and its last message is the newest of them. */
  lemma {:induction false} SummaryInTimeOrder(sender: string, msgs: seq<Message>)
    requires msgs != []
    ensures var c := Summary(sender, msgs);
            && (forall a, b :: 0 <= a < b < |c.messages| ==> c.messages[a].time <= c.messages[b].time)
            && (forall m :: m in c.messages ==> m.time <= c.lastMessage.time)
  {
    var sorted := Seqs.SortBy(msgs, Earlier);
    EarlierIsOrder();
    Seqs.SortBySorted(msgs, Earlier);
    forall a, b | 0 <= a < b < |sorted| ensures sorted[a].time <= sorted[b].time {
      Seqs.SortedPairwise(sorted, Earlier, a, b);
    }
    forall m | m in sorted ensures m.time <= sorted[|sorted| - 1].time {
      var a :| 0 <= a < |sorted| && sorted[a] == m;
      if a < |sorted| - 1 {
        Seqs.SortedPairwise(sorted, Earlier, a, |sorted| - 1);
      }
    }
  }

  /** The test "was sent at the same time as `x`". */
  function SameTime(x: Message): Message -> bool {
    (y: Message) => y.time == x.time
  }

  /** The sort is stable: a summary keeps messages sent at the same time in their list order. */
  lemma SummaryKeepsTies(sender: string, msgs: seq<Message>, x: Message)
    requires msgs != []
    ensures Seqs.Filter(Summary(sender, msgs).messages, SameTime(x)) == Seqs.Filter(msgs, SameTime(x))
  {
    EarlierIsOrder();
    Seqs.SortByStable(msgs, Earlier, x);
    assert forall y :: Seqs.Tied(Earlier, x)(y) == SameTime(x)(y);
    Seqs.FilterSame(Summary(sender, msgs).messages, Seqs.Tied(Earlier, x), SameTime(x));
    Seqs.FilterSame(msgs, Seqs.Tied(Earlier, x), SameTime(x));
  }

  /** Of several messages sent at the newest time, the one listed last becomes the last message. */
  lemma LastMessageListedLast(sender: string, msgs: seq<Message>)
    requires msgs != []
    ensures var c := Summary(sender, msgs);
            var ties := Seqs.Filter(msgs, SameTime(c.lastMessage));
            ties != [] && ties[|ties| - 1] == c.lastMessage
  {
    var c := Summary(sender, msgs);
    Seqs.FilterKeepsLast(c.messages, SameTime(c.lastMessage));
    SummaryKeepsTies(sender, msgs, c.lastMessage);
  }

  /** A row's messages run oldest first, and its last message is the newest of them. */
  lemma RowInTimeOrder(messages: seq<Message>, j: nat)
    requires j < |AllConversations(messages)|
    ensures var c := AllConversations(messages)[j];
            && (forall a, b :: 0 <= a < b < |c.messages| ==> c.messages[a].time <= c.messages[b].time)
            && (forall m :: m in c.messages ==> m.time <= c.lastMessage.time)
  {
    RowIsSummary(messages, j);
    var c := AllConversations(messages)[j];
    SummaryInTimeOrder(c.sender, Seqs.Filter(messages, FromSender(c.sender)));
  }

  /** Rows are ordered by their last message, newest first. */
  lemma RowsNewestFirst(messages: seq<Message>, i: nat, j: nat)
    requires i < j < |AllConversations(messages)|
    ensures AllConversations(messages)[i].lastMessage.time >= AllConversations(messages)[j].lastMessage.time
  {
    Seqs.SortBySorted(Rows(messages), NewerLast);
    Seqs.SortedPairwise(AllConversations(messages), NewerLast, i, j);
  }

  // ---------------------------------------------------------------------------
  // Search and selection

  /** The search test: the term, lower-cased, occurs in the lower-cased sender or last message text. */
  function Matches(term: string): Conversation -> bool {
    (c: Conversation) => Text.Contains(Text.Lower(c.sender), Text.Lower(term))
         || Text.Contains(Text.Lower(c.lastMessage.message), Text.Lower(term))
  }

  /** The rows the search keeps, in row order. */
  function FilteredConversations(convs: seq<Conversation>, term: string): (r: seq<Conversation>)
    ensures forall c :: c in r <==> c in convs && Matches(term)(c)
  {
    Seqs.Filter(convs, Matches(term))
  }

  /** An empty search keeps every row. */
  lemma EmptySearchKeepsAll(convs: seq<Conversation>)
    ensures FilteredConversations(convs, "") == convs
  {
    forall i | 0 <= i < |convs| ensures Matches("")(convs[i]) {
      Text.EmptyIsEverywhere(Text.Lower(convs[i].sender));
    }
    Seqs.FilterAll(convs, Matches(""));
  }

  /** The first row from `sender`. */
  function FindSender(convs: seq<Conversation>, sender: string): (r: Option<Conversation>)
    ensures r.Some? <==> exists c :: c in convs && c.sender == sender
    ensures r.Some? ==> r.value in convs && r.value.sender == sender
  {
    if convs == [] then None
    else if convs[0].sender == sender then Some(convs[0])
    else FindSender(convs[1..], sender)
  }

  /** The open conversation: none when no sender (or the empty one) is selected. */
  function ActiveConversation(convs: seq<Conversation>, selected: Option<string>): (r: Option<Conversation>)
    ensures selected.None? || selected.value == [] ==> r.None?
    ensures selected.Some? && selected.value != [] ==>
              (r.Some? <==> exists c :: c in convs && c.sender == selected.value)
    ensures r.Some? ==> r.value in convs && r.value.sender == selected.value
  {
    if selected.Some? && selected.value != [] then FindSender(convs, selected.value) else None
  }
}
