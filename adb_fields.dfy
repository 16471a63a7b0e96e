/**
 * The field extraction both adb scripts apply to one line of
 * `adb shell content query` output, where the rows look like
 * `Row: 0 date=1700000000000, address=+1555, body=hi`.
 * Each function here is one of the regular expressions the scripts search
 * with, stated directly over the characters of the line.
 */
module AdbFields {
  import opened Wrappers
  import Text

  /** The text that stands in for an empty message body. */
  const EmptyBody: string := "[Boş Mesaj]"

  /** One message of a batch sent to the bulk route; the date is the `date=` field in milliseconds. */
  datatype InboxRecord = InboxRecord(sender: string, message: string, dateMillis: Option<nat>)

  /** Some terminator in `stops` starts at index `q` of `line`. */
  predicate StopsAt(line: string, stops: seq<string>, q: nat) {
    exists t :: t in stops && Text.OccursAt(line, t, q)
  }

  /** The least index at or after `p` where a terminator starts, or the end of the line. */
  function EarliestStop(line: string, stops: seq<string>, p: nat): (q: nat)
    requires p <= |line|
    ensures p <= q <= |line|
    ensures q == |line| || StopsAt(line, stops, q)
    ensures forall j :: p <= j < q ==> !StopsAt(line, stops, j)
    decreases |line| - p
  {
    if p == |line| || StopsAt(line, stops, p) then p else EarliestStop(line, stops, p + 1)
  }

  /**
   * The lazy capture `key(.*?)(stop1|stop2|...|$)`: the text after the first
   * occurrence of `key` up to the first terminator or the end of the line;
   * None when `key` does not occur.
   */
  function ValueUntil(line: string, key: string, stops: seq<string>): (r: Option<string>)
    ensures r.None? <==> !Text.Contains(line, key)
    ensures r.Some? ==>
      var start := Text.IndexOf(line, key).value + |key|;
      start + |r.value| <= |line| && r.value == line[start..start + |r.value|]
      && (start + |r.value| == |line| || StopsAt(line, stops, start + |r.value|))
      && forall j :: start <= j < start + |r.value| ==> !StopsAt(line, stops, j)
  {
    match Text.IndexOf(line, key)
    case None => None
    case Some(i) =>
      var start := i + |key|;
      Some(line[start..EarliestStop(line, stops, start)])
  }

  /** A one-character terminator never appears inside the captured value. */
  lemma {:induction false} ValueAvoidsStop(line: string, key: string, stops: seq<string>, c: char)
    requires [c] in stops && ValueUntil(line, key, stops).Some?
    ensures c !in ValueUntil(line, key, stops).value
  {
    var v := ValueUntil(line, key, stops).value;
    var start := Text.IndexOf(line, key).value + |key|;
    forall j | 0 <= j < |v| ensures v[j] != c {
      assert !StopsAt(line, stops, start + j);
      assert v[j] == line[start + j];
    }
  }

  /** The greedy capture `key(.*)$`: everything after the first occurrence of `key`. */
  function RestAfter(line: string, key: string): (r: Option<string>)
    ensures r.None? <==> !Text.Contains(line, key)
    ensures r.Some? ==> |r.value| <= |line|
                        && line == line[..|line| - |r.value|] + r.value
                        && |line| - |r.value| == Text.IndexOf(line, key).value + |key|
  {
    match Text.IndexOf(line, key)
    case None => None
    case Some(i) => Some(line[i + |key|..])
  }

  /** The message of a line: the stripped text after `body=`, or the stand-in when that is empty or absent. */
  function MessageOf(line: string): (m: string)
    ensures m != []
    ensures m == EmptyBody || (RestAfter(line, "body=").Some? && m == Text.Strip(RestAfter(line, "body=").value))
  {
    var body := match RestAfter(line, "body=")
      case Some(b) => Text.Strip(b)
      case None => "";
    if body == "" then EmptyBody else body
  }

  /** The maximal run of digits starting at index `p`. */
  function DigitsFrom(line: string, p: nat): (d: string)
    requires p <= |line|
    ensures Text.AllDigits(d) && p + |d| <= |line| && d == line[p..p + |d|]
    ensures p + |d| == |line| || !Text.IsDigit(line[p + |d|])
    decreases |line| - p
  {
    if p < |line| && Text.IsDigit(line[p]) then [line[p]] + DigitsFrom(line, p + 1) else []
  }

  /** `date=` followed by at least one digit starts at index `p`. */
  predicate DateAt(line: string, p: nat) {
    Text.OccursAt(line, "date=", p) && p + 5 < |line| && Text.IsDigit(line[p + 5])
  }

  /** The search `date=([0-9]+)` from index `p` on: the value of the first such digit run. */
  function DateFrom(line: string, p: nat): (r: Option<nat>)
    requires p <= |line|
    ensures r.None? <==> forall j :: p <= j <= |line| ==> !DateAt(line, j)
    ensures r.Some? ==> exists j :: p <= j <= |line| && DateAt(line, j)
                                    && (forall q :: p <= q < j ==> !DateAt(line, q))
                                    && r.value == Text.DecimalValue(DigitsFrom(line, j + 5))
    decreases |line| - p
  {
    if DateAt(line, p) then Some(Text.DecimalValue(DigitsFrom(line, p + 5)))
    else if p == |line| then None
    else
      var r := DateFrom(line, p + 1);
      assert r.Some? ==> exists j :: p <= j <= |line| && DateAt(line, j)
                                     && (forall q :: p <= q < j ==> !DateAt(line, q))
                                     && r.value == Text.DecimalValue(DigitsFrom(line, j + 5)) by {
        if r.Some? {
          var j :| p + 1 <= j <= |line| && DateAt(line, j)
                   && (forall q :: p + 1 <= q < j ==> !DateAt(line, q))
                   && r.value == Text.DecimalValue(DigitsFrom(line, j + 5));
          assert forall q :: p <= q < j ==> !DateAt(line, q);
        }
      }
      r
  }

  /** The date of a line in milliseconds, when some `date=` in it is followed by digits. */
  function DateMillis(line: string): Option<nat> {
    DateFrom(line, 0)
  }
}
