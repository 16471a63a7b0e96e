/**
 * The server-rendered dashboard's script: the list it shows under the
 * read/unread filter and the search box, the preview and avatar initials of
 * a row, the relative age of a message, and the modal that marks a message
 * read or unread. Fetching, the DOM and the clock are left out: a load is
 * given the fetched list, the search box's text is a parameter, the clock
 * reading is a parameter, and the read-flag requests the page sends are
 * recorded in order.
 */
module Dashboard {
  import opened Wrappers
  import Text
  import Seqs
  import MessageStore

  type Sms = MessageStore.Sms

  // ---------------------------------------------------------------------------
  // Filter and search

  /** The filter buttons' test: `all`, `unread` for unread messages, `read` for read ones; any other filter shows nothing. */
  predicate PassesFilter(filter: string, sms: Sms) {
    filter == "all" || (filter == "unread" && !sms.read) || (filter == "read" && sms.read)
  }

  /** The search test: an empty box, or the lower-cased box text occurs in the lower-cased sender or message. */
  predicate PassesSearch(searchInput: string, sms: Sms) {
    var term := Text.Lower(searchInput);
    term == [] || Text.Contains(Text.Lower(sms.sender), term) || Text.Contains(Text.Lower(sms.message), term)
  }

  /** Both tests, as the test the list is filtered with. */
  function Shows(filter: string, searchInput: string): Sms -> bool {
    (sms: Sms) => PassesFilter(filter, sms) && PassesSearch(searchInput, sms)
  }

  /** With the `all` filter and an empty search box every message is shown, in list order. */
  lemma {:induction false} AllShownWhenUnfiltered(allSms: seq<Sms>)
    ensures Seqs.Filter(allSms, Shows("all", "")) == allSms
  {
    forall i | 0 <= i < |allSms| ensures Shows("all", "")(allSms[i]) {
      assert Text.Lower("") == "";
    }
    Seqs.FilterAll(allSms, Shows("all", ""));
  }

  /** For any search, the `read` and `unread` views together hold as many messages as the `all` view. */
  lemma {:induction false} ReadAndUnreadSplitAll(allSms: seq<Sms>, searchInput: string)
    ensures |Seqs.Filter(allSms, Shows("read", searchInput))| + |Seqs.Filter(allSms, Shows("unread", searchInput))|
            == |Seqs.Filter(allSms, Shows("all", searchInput))|
  {
    if allSms != [] {
      ReadAndUnreadSplitAll(allSms[..|allSms| - 1], searchInput);
    }
  }

  /** A view only narrows when the search box gains text: every message shown for `term + more` is shown for `term`. */
  lemma LongerSearchNarrows(allSms: seq<Sms>, filter: string, term: string, more: string, sms: Sms)
    requires sms in Seqs.Filter(allSms, Shows(filter, term + more))
    ensures sms in Seqs.Filter(allSms, Shows(filter, term))
  {
    assert Shows(filter, term + more)(sms);
    Text.LowerAppend(term, more);
    var shorter := Text.Lower(term);
    if shorter != [] {
      if Text.Contains(Text.Lower(sms.sender), shorter + Text.Lower(more)) {
        Text.ContainsPrefix(Text.Lower(sms.sender), shorter, Text.Lower(more));
      } else {
        Text.ContainsPrefix(Text.Lower(sms.message), shorter, Text.Lower(more));
      }
    }
    assert Shows(filter, term)(sms);
  }

  // ---------------------------------------------------------------------------
  // One row of the list

  /** The preview of a message text: missing or empty gives the empty text, longer than 100 characters is cut with "...". */
  function Preview(message: Option<string>): (p: string)
    ensures |p| <= Text.ShortLimit + 3
    ensures message.None? ==> p == ""
    ensures message.Some? && |message.value| <= Text.ShortLimit ==> p == message.value
    ensures message.Some? && |message.value| > Text.ShortLimit ==> p == message.value[..Text.ShortLimit] + "..."
  {
    if message.Some? && |message.value| > Text.ShortLimit then message.value[..Text.ShortLimit] + "..."
    else message.GetOr("")
  }

  /** Previewing a preview changes nothing. */
  lemma PreviewIdempotent(message: string)
    ensures Preview(Some(Preview(Some(message)))) == Preview(Some(message))
  {
    Text.ShortenIdempotent(message);
  }

  /**
   * `part[0]` as string concatenation sees it: the first character, or the
   * text "undefined" when the part is empty.
   */
  function HeadOrUndefined(part: string): string {
    if part == [] then "undefined" else [part[0]]
  }

  /** "undefined" upper-cased. */
  lemma UpperUndefined()
    ensures Text.Upper("undefined") == "UNDEFINED"
  {
  }

  /**
   * `(first[0] + second[0]).toUpperCase()`: a missing head reads as
   * "undefined"; two missing heads add up to a number, whose missing
   * `toUpperCase` throws (None).
   */
  function JoinHeads(first: string, second: string): (r: Option<string>)
    ensures first != [] && second != [] ==> r == Some([Text.UpperChar(first[0]), Text.UpperChar(second[0])])
    ensures first != [] && second == [] ==> r == Some([Text.UpperChar(first[0])] + "UNDEFINED")
    ensures first == [] && second != [] ==> r == Some("UNDEFINED" + [Text.UpperChar(second[0])])
    ensures first == [] && second == [] ==> r.None?
  {
    if first == [] && second == [] then None
    else
      var joined := HeadOrUndefined(first) + HeadOrUndefined(second);
      Text.UpperAppend(HeadOrUndefined(first), HeadOrUndefined(second));
      UpperUndefined();
      assert first != [] ==> Text.Upper([first[0]]) == [Text.UpperChar(first[0])];
      assert second != [] ==> Text.Upper([second[0]]) == [Text.UpperChar(second[0])];
      assert first != [] && second != [] ==>
        [Text.UpperChar(first[0])] + [Text.UpperChar(second[0])] == [Text.UpperChar(first[0]), Text.UpperChar(second[0])];
      Some(Text.Upper(joined))
  }

  /**
   * `getInitials(name)` as written: "?" for an empty name; the upper-cased
   * heads of the first two pieces of `name.split(' ')` when there are two;
   * otherwise the first two characters upper-cased. None stands for the
   * TypeError thrown when both heads are missing.
   */
  function Initials(name: string): (r: Option<string>)
    ensures name == [] ==> r == Some("?")
    ensures name != [] && ' ' !in name ==> r == Some(Text.Upper(name[..if |name| < 2 then |name| else 2]))
    ensures ' ' in name ==>
      var i := Text.FirstOf(name, ' ');
      r == JoinHeads(name[..i], if i + 1 < |name| && name[i + 1] != ' ' then [name[i + 1]] else [])
  {
    if name == [] then Some("?")
    else
      var parts := Text.SplitOn(name, ' ');
      if |parts| >= 2 then
        var i := Text.FirstOf(name, ' ');
        assert parts == [name[..i]] + Text.SplitOn(name[i + 1..], ' ');
        Text.SplitOnHead(name[i + 1..], ' ');
        JoinHeads(parts[0], parts[1])
      else Some(Text.Upper(name[..if |name| < 2 then |name| else 2]))
  }

  /** The relative age of a message, as the list and the modal show it. */
  datatype Age = JustNow | MinutesAgo(minutes: nat) | HoursAgo(hours: nat) | OnDate

  /**
   * `formatTime`'s buckets for a message dated `timeMillis` seen at
   * `nowMillis`: under a minute (a message from the future included) is
   * "just now", then whole minutes, then whole hours, then the date.
   */
  function FormatTime(nowMillis: int, timeMillis: int): (a: Age)
    ensures var diff := nowMillis - timeMillis;
      (a.JustNow? <==> diff < 60000)
      && (a.MinutesAgo? <==> 60000 <= diff < 3600000)
      && (a.HoursAgo? <==> 3600000 <= diff < 86400000)
      && (a.OnDate? <==> 86400000 <= diff)
      && (a.MinutesAgo? ==> 1 <= a.minutes <= 59 && a.minutes * 60000 <= diff < (a.minutes + 1) * 60000)
      && (a.HoursAgo? ==> 1 <= a.hours <= 23 && a.hours * 3600000 <= diff < (a.hours + 1) * 3600000)
  {
    var diff := nowMillis - timeMillis;
    if diff < 60000 then JustNow
    else if diff < 3600000 then MinutesAgo(diff / 60000)
    else if diff < 86400000 then HoursAgo(diff / 3600000)
    else OnDate
  }

  /** How old an age says a message is, in whole minutes (a day for the date bucket). */
  function AgeMinutes(a: Age): nat {
    match a
    case JustNow => 0
    case MinutesAgo(m) => m
    case HoursAgo(h) => 60 * h
    case OnDate => 1440
  }

  /** An older message never shows a younger age. */
  lemma AgeMonotone(nowMillis: int, newer: int, older: int)
    requires older <= newer
    ensures AgeMinutes(FormatTime(nowMillis, newer)) <= AgeMinutes(FormatTime(nowMillis, older))
  {
    var a, b := FormatTime(nowMillis, newer), FormatTime(nowMillis, older);
    if a.MinutesAgo? && b.MinutesAgo? {
      assert a.minutes * 60000 < (b.minutes + 1) * 60000;
    } else if a.HoursAgo? && b.HoursAgo? {
      assert a.hours * 3600000 < (b.hours + 1) * 3600000;
    }
  }

  /** The text of an age; the date bucket's locale rendering is not modelled (None). */
  function AgeLabel(a: Age): (t: Option<string>)
    ensures a.JustNow? ==> t == Some("Az önce")
    ensures a.MinutesAgo? ==> exists d :: t == Some(d + " dakika önce") && Text.AllDigits(d) && Text.DecimalValue(d) == a.minutes
    ensures a.HoursAgo? ==> exists d :: t == Some(d + " saat önce") && Text.AllDigits(d) && Text.DecimalValue(d) == a.hours
    ensures a.OnDate? ==> t.None?
  {
    match a
    case JustNow => Some("Az önce")
    case MinutesAgo(m) =>
      Text.DecimalRoundTrip(m);
      Some(Text.NatToDecimal(m) + " dakika önce")
    case HoursAgo(h) =>
      Text.DecimalRoundTrip(h);
      Some(Text.NatToDecimal(h) + " saat önce")
    case OnDate => None
  }

  // ---------------------------------------------------------------------------
  // The modal's read-flag request

  /** A `POST /api/sms/<id>/read` with the body `{read: ...}`. */
  datatype ReadRequest = ReadRequest(id: int, read: bool)

  /** `allSms.find(s => s.id === id)`: the first message with the id. */
  function FindById(allSms: seq<Sms>, id: int): (r: Option<Sms>)
    ensures r.Some? <==> exists k :: 0 <= k < |allSms| && allSms[k].id == id
    ensures r.Some? ==> r.value.id == id && r.value == allSms[MessageStore.FirstWithId(allSms, id).value]
  {
    match MessageStore.FirstWithId(allSms, id)
    case None => None
    case Some(k) => Some(allSms[k])
  }

  /** The request opening a message sends, as written: an unread message is sent `read: false`. */
  function OpenRequest(sms: Sms): (q: Option<ReadRequest>)
    ensures q.Some? <==> !sms.read
    ensures q.Some? ==> q.value.id == sms.id && !q.value.read
  {
    if !sms.read then Some(ReadRequest(sms.id, false)) else None
  }

  /** The request opening was meant to send: an unread message is marked read. */
  function IntendedOpenRequest(sms: Sms): (q: Option<ReadRequest>)
    ensures q.Some? <==> !sms.read
    ensures q.Some? ==> q.value.id == sms.id && q.value.read
  {
    if !sms.read then Some(ReadRequest(sms.id, true)) else None
  }

  /** Applied by the server, the request opening an unread message sends leaves the store as it was: the message stays unread. */
  lemma OpenRequestKeepsUnread(records: seq<Sms>, id: int)
    requires FindById(records, id).Some? && !FindById(records, id).value.read
    ensures var q := OpenRequest(FindById(records, id).value).value;
            MessageStore.MarkRead(records, q.id, q.read) == records
  {
    var k := MessageStore.FirstWithId(records, id).value;
    assert records[k].(read := false) == records[k];
  }

  /** Applied by the server, the intended request marks the opened message read and changes nothing else. */
  lemma IntendedOpenRequestMarksRead(records: seq<Sms>, id: int)
    requires FindById(records, id).Some? && !FindById(records, id).value.read
    ensures var q := IntendedOpenRequest(FindById(records, id).value).value;
            var after := MessageStore.MarkRead(records, q.id, q.read);
            var k := MessageStore.FirstWithId(records, id).value;
            after[k].read && after[k] != records[k]
            && forall j :: 0 <= j < |records| && j != k ==> after[j] == records[j]
  {
  }

  // ---------------------------------------------------------------------------
  // The page

  /** What loading the list ends with: a failed fetch, or the reply's `sms_list` (None when the key is missing). */
  datatype Load = FetchFailed | Fetched(smsList: Option<seq<Sms>>)

  class Page {
    /** The list as last fetched (the server sends it newest first). */
    var allSms: seq<Sms>
    /** The list on screen. */
    var filteredSms: seq<Sms>
    var currentFilter: string
    /** The message the modal shows. */
    var currentSmsId: Option<int>
    var modalOpen: bool
    /** The read-flag requests sent, oldest first. */
    var requests: seq<ReadRequest>

    constructor ()
      ensures allSms == [] && filteredSms == [] && currentFilter == "all"
      ensures currentSmsId.None? && !modalOpen && requests == []
    {
      allSms := [];
      filteredSms := [];
      currentFilter := "all";
      currentSmsId := None;
      modalOpen := false;
      requests := [];
    }

    /** `filterSMS`: the list on screen becomes the fetched list under the filter and the search box, in list order. */
    method FilterSms(searchInput: string)
      modifies this
      ensures filteredSms == Seqs.Filter(allSms, Shows(currentFilter, searchInput))
      ensures allSms == old(allSms) && currentFilter == old(currentFilter)
      ensures currentSmsId == old(currentSmsId) && modalOpen == old(modalOpen) && requests == old(requests)
    {
      filteredSms := Seqs.Filter(allSms, Shows(currentFilter, searchInput));
    }

    /** `setFilter`: switch the filter and redraw the list. */
    method SetFilter(filter: string, searchInput: string)
      modifies this
      ensures currentFilter == filter
      ensures filteredSms == Seqs.Filter(allSms, Shows(filter, searchInput))
      ensures allSms == old(allSms)
      ensures currentSmsId == old(currentSmsId) && modalOpen == old(modalOpen) && requests == old(requests)
    {
      currentFilter := filter;
      FilterSms(searchInput);
    }

    /** `loadSMS`: a failed fetch changes nothing; otherwise the reply's list (or none) is stored and the view redrawn. */
    method LoadSms(load: Load, searchInput: string)
      modifies this
      ensures load.FetchFailed? ==> allSms == old(allSms) && filteredSms == old(filteredSms)
      ensures load.Fetched? ==> allSms == load.smsList.GetOr([])
                                && filteredSms == Seqs.Filter(allSms, Shows(currentFilter, searchInput))
      ensures currentFilter == old(currentFilter)
      ensures currentSmsId == old(currentSmsId) && modalOpen == old(modalOpen) && requests == old(requests)
    {
      if load.FetchFailed? {
        return;
      }
      allSms := load.smsList.GetOr([]);
      FilterSms(searchInput);
    }

    /**
     * `openModal` as written: an unknown id does nothing; otherwise the modal
     * shows the message, and for an unread one the request `OpenRequest`
     * gives is sent, `read: false`.
     */
    method OpenModal(id: int)
      modifies this
      ensures FindById(old(allSms), id).None? ==>
                currentSmsId == old(currentSmsId) && modalOpen == old(modalOpen) && requests == old(requests)
      ensures FindById(old(allSms), id).Some? ==>
                currentSmsId == Some(id) && modalOpen
                && requests == old(requests) + (if FindById(old(allSms), id).value.read then [] else [ReadRequest(id, false)])
      ensures allSms == old(allSms) && filteredSms == old(filteredSms) && currentFilter == old(currentFilter)
    {
      var sms := FindById(allSms, id);
      if sms.None? {
        return;
      }
      currentSmsId := Some(id);
      modalOpen := true;
      var request := OpenRequest(sms.value);
      if request.Some? {
        requests := requests + [request.value];
      }
    }

    /** `openModal` as evidently intended: the same, but an unread message is sent `read: true`. */
    method IntendedOpenModal(id: int)
      modifies this
      ensures FindById(old(allSms), id).None? ==>
                currentSmsId == old(currentSmsId) && modalOpen == old(modalOpen) && requests == old(requests)
      ensures FindById(old(allSms), id).Some? ==>
                currentSmsId == Some(id) && modalOpen
                && requests == old(requests) + (if FindById(old(allSms), id).value.read then [] else [ReadRequest(id, true)])
      ensures allSms == old(allSms) && filteredSms == old(filteredSms) && currentFilter == old(currentFilter)
    {
      var sms := FindById(allSms, id);
      if sms.None? {
        return;
      }
      currentSmsId := Some(id);
      modalOpen := true;
      var request := IntendedOpenRequest(sms.value);
      if request.Some? {
        requests := requests + [request.value];
      }
    }

    /** `closeModal`: hide the modal and forget its message. */
    method CloseModal()
      modifies this
      ensures currentSmsId.None? && !modalOpen
      ensures allSms == old(allSms) && filteredSms == old(filteredSms) && currentFilter == old(currentFilter)
      ensures requests == old(requests)
    {
      modalOpen := false;
      currentSmsId := None;
    }

    /**
     * `toggleRead`: with no message open (or the id 0, which the script
     * treats as none) or one no longer listed, nothing happens; otherwise the
     * opposite of its read flag is requested and the modal closes.
     */
    method ToggleRead()
      modifies this
      ensures old(currentSmsId).None? || old(currentSmsId) == Some(0)
              || FindById(old(allSms), old(currentSmsId).value).None? ==>
                currentSmsId == old(currentSmsId) && modalOpen == old(modalOpen) && requests == old(requests)
      ensures old(currentSmsId).Some? && old(currentSmsId) != Some(0)
              && FindById(old(allSms), old(currentSmsId).value).Some? ==>
                requests == old(requests) + [ReadRequest(old(currentSmsId).value, !FindById(old(allSms), old(currentSmsId).value).value.read)]
                && currentSmsId.None? && !modalOpen
      ensures allSms == old(allSms) && filteredSms == old(filteredSms) && currentFilter == old(currentFilter)
    {
      if currentSmsId.None? || currentSmsId == Some(0) {
        return;
      }
      var id := currentSmsId.value;
      var sms := FindById(allSms, id);
      if sms.None? {
        return;
      }
      requests := requests + [ReadRequest(id, !sms.value.read)];
      CloseModal();
    }
  }

  // ---------------------------------------------------------------------------
  // The initials, as evidently intended

  /** The non-empty pieces of a split. */
  predicate NonEmpty(piece: string) {
    piece != []
  }

  /** The words of a name: the pieces between spaces, runs of spaces making no empty word. */
  function Words(name: string): (w: seq<string>)
    ensures forall k :: 0 <= k < |w| ==> w[k] != [] && forall j :: 0 <= j < |w[k]| ==> w[k][j] in name
  {
    var words := Seqs.Filter(Text.SplitOn(name, ' '), NonEmpty);
    Text.SplitOnChars(name, ' ');
    assert forall k :: 0 <= k < |words| ==> words[k] in Text.SplitOn(name, ' ');
    words
  }

  /**
   * The initials as the code evidently means them: the upper-cased first
   * letters of the first two words, the first two letters of a lone word, or
   * "?" when there is no word.
   */
  function IntendedInitials(name: string): (r: string)
    ensures 1 <= |r| <= 2
    ensures r == "?" || forall j :: 0 <= j < |r| ==> exists c :: c in name && r[j] == Text.UpperChar(c)
    ensures |Words(name)| >= 2 ==> r == [Text.UpperChar(Words(name)[0][0]), Text.UpperChar(Words(name)[1][0])]
  {
    var words := Words(name);
    if words == [] then "?"
    else if |words| >= 2 then
      var r := Text.Upper([words[0][0], words[1][0]]);
      assert r == [Text.UpperChar(words[0][0]), Text.UpperChar(words[1][0])];
      r
    else
      var w := words[0];
      Text.Upper(w[..if |w| < 2 then |w| else 2])
  }

  /** As written, a name with a trailing space gets "UNDEFINED" in its initials, and a lone space throws. */
  lemma InitialsLeakUndefined()
    ensures Initials("Ali ") == Some("AUNDEFINED")
    ensures Initials(" ").None?
  {
    assert Text.FirstOf("Ali ", ' ') == 3;
    assert "Ali "[..3] == "Ali";
    assert ['A'] + "UNDEFINED" == "AUNDEFINED";
    assert Text.FirstOf(" ", ' ') == 0;
  }

  /** A name whose first space is followed by a letter, after a first word, has those two words first. */
  lemma {:induction false} WellSpacedWords(name: string, i: nat)
    requires ' ' in name && i == Text.FirstOf(name, ' ') && i > 0 && i + 1 < |name| && name[i + 1] != ' '
    ensures |Words(name)| >= 2 && Words(name)[0][0] == name[0] && Words(name)[1][0] == name[i + 1]
  {
    var parts := Text.SplitOn(name, ' ');
    assert parts == [name[..i]] + Text.SplitOn(name[i + 1..], ' ');
    Text.SplitOnHead(name[i + 1..], ' ');
    assert parts[..2] + parts[2..] == parts;
    Seqs.FilterAll(parts[..2], NonEmpty);
    Seqs.FilterAppend(parts[..2], parts[2..], NonEmpty);
  }

  /** Where the written code's first two pieces are non-empty, or there is no space at all, it agrees with the intended initials. */
  lemma InitialsAgreeWhenWellSpaced(name: string)
    requires name != []
    requires ' ' in name ==> var i := Text.FirstOf(name, ' '); i > 0 && i + 1 < |name| && name[i + 1] != ' '
    ensures Initials(name) == Some(IntendedInitials(name))
  {
    if ' ' in name {
      var i := Text.FirstOf(name, ' ');
      WellSpacedWords(name, i);
      assert Initials(name) == JoinHeads(name[..i], [name[i + 1]]);
    } else {
      SingleWord(name);
    }
  }

  /** A non-empty name without a space is one word. */
  lemma SingleWord(name: string)
    requires name != [] && ' ' !in name
    ensures Words(name) == [name]
  {
    var parts := Text.SplitOn(name, ' ');
    assert parts == [name];
    assert Seqs.Filter(parts, NonEmpty) == Seqs.Filter([], NonEmpty) + [name];
  }
}
