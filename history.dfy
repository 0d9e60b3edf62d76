/**
 * The run history of lib/historyUtils.ts: a newest-first list of the scripts
 * that were run, capped at twenty entries and kept in the browser's local
 * storage, and the relative-age label shown next to each entry.
 */
module History {
  import opened Text
  import opened Seqs
  import Chat

  /** One saved run: the script verbatim and the `Date.now()` of the save, in milliseconds. */
  datatype HistoryItem = HistoryItem(code: string, timestamp: int)

  const MaxHistoryItems: nat := 20

  /**
   * What local storage holds under the history key: nothing (or the empty
   * string), the text of a list of items, or text that does not parse.
   */
  datatype Stored = Missing | Items(items: seq<HistoryItem>) | Unreadable

  function Min(a: nat, b: nat): nat {
    if a <= b then a else b
  }

  // ---------------------------------------------------------------- saving

  /** `[newItem, ...history].slice(0, MAX_HISTORY_ITEMS)`. */
  function Saved(history: seq<HistoryItem>, item: HistoryItem): (r: seq<HistoryItem>)
    ensures |r| <= MaxHistoryItems && |r| <= |history| + 1
    ensures |r| == |history| + 1 || |r| == MaxHistoryItems
    ensures r[0] == item
    ensures r[1..] == history[..|r| - 1]
  {
    ([item] + history)[..Min(|history| + 1, MaxHistoryItems)]
  }

  /** `items` saved one after the other, the first one first. */
  function SaveAll(history: seq<HistoryItem>, items: seq<HistoryItem>): seq<HistoryItem>
    decreases |items|
  {
    if items == [] then history
    else Saved(SaveAll(history, items[..|items| - 1]), items[|items| - 1])
  }

  function Reversed(items: seq<HistoryItem>): (r: seq<HistoryItem>)
    ensures |r| == |items|
    ensures forall k :: 0 <= k < |r| ==> r[k] == items[|items| - 1 - k]
  {
    if items == [] then [] else [items[|items| - 1]] + Reversed(items[..|items| - 1])
  }

  /**
   * A run of saves leaves the newest twenty entries, newest first: the items
   * saved, latest first, then the older history, and whatever falls beyond
   * twenty is the oldest.
   */
  lemma {:induction false} SaveAllNewestFirst(history: seq<HistoryItem>, items: seq<HistoryItem>)
    requires |history| <= MaxHistoryItems
    ensures SaveAll(history, items) == (Reversed(items) + history)[..Min(|items| + |history|, MaxHistoryItems)]
    decreases |items|
  {
    if items == [] {
      assert Reversed(items) + history == history;
    } else {
      SaveAllNewestFirst(history, items[..|items| - 1]);
      SaveOneMore(history, items);
    }
  }

  /** The inductive step: saving the last item puts it before what the earlier saves kept. */
  lemma SaveOneMore(history: seq<HistoryItem>, items: seq<HistoryItem>)
    requires |history| <= MaxHistoryItems && items != []
    requires var init := items[..|items| - 1];
      SaveAll(history, init) == (Reversed(init) + history)[..Min(|init| + |history|, MaxHistoryItems)]
    ensures SaveAll(history, items) == (Reversed(items) + history)[..Min(|items| + |history|, MaxHistoryItems)]
  {
    var init, last := items[..|items| - 1], items[|items| - 1];
    var x := Reversed(init) + history;
    var m, j := Min(|x|, MaxHistoryItems), Min(|x| + 1, MaxHistoryItems);
    assert SaveAll(history, items) == ([last] + x[..m])[..j];
    TakeAfterCons(last, x, m, j);
    assert Reversed(items) == [last] + Reversed(init);
    ConsAppend(last, Reversed(init), history);
  }

  // ---------------------------------------------------------------- deleting

  /** `history.filter((item) => item.timestamp !== timestamp)`. */
  function Without(history: seq<HistoryItem>, timestamp: int): (r: seq<HistoryItem>)
    ensures |r| <= |history|
    ensures forall x :: x in r <==> x in history && x.timestamp != timestamp
  {
    if history == [] then []
    else (if history[0].timestamp != timestamp then [history[0]] else []) + Without(history[1..], timestamp)
  }

  /** Deleting works item by item: what is kept stays in its order. */
  lemma {:induction false} WithoutAppend(a: seq<HistoryItem>, b: seq<HistoryItem>, timestamp: int)
    ensures Without(a + b, timestamp) == Without(a, timestamp) + Without(b, timestamp)
  {
    if a == [] {
      assert a + b == b;
    } else {
      var head := if a[0].timestamp != timestamp then [a[0]] else [];
      assert (a + b)[0] == a[0];
      assert (a + b)[1..] == a[1..] + b;
      calc {
        Without(a + b, timestamp);
        head + Without(a[1..] + b, timestamp);
        { WithoutAppend(a[1..], b, timestamp); }
        head + (Without(a[1..], timestamp) + Without(b, timestamp));
        (head + Without(a[1..], timestamp)) + Without(b, timestamp);
      }
    }
  }

  predicate HasTimestamp(history: seq<HistoryItem>, timestamp: int) {
    exists x :: x in history && x.timestamp == timestamp
  }

  /** Deleting a timestamp no item has changes nothing. */
  lemma {:induction false} WithoutAbsent(history: seq<HistoryItem>, timestamp: int)
    requires !HasTimestamp(history, timestamp)
    ensures Without(history, timestamp) == history
  {
    if history != [] {
      assert history[0] in history;
      assert !HasTimestamp(history[1..], timestamp) by {
        forall x | x in history[1..] ensures x.timestamp != timestamp {
          assert x in history;
        }
      }
      WithoutAbsent(history[1..], timestamp);
    }
  }

  /** Deleting the same timestamp twice is deleting it once. */
  lemma WithoutIdempotent(history: seq<HistoryItem>, timestamp: int)
    ensures Without(Without(history, timestamp), timestamp) == Without(history, timestamp)
  {
    WithoutAbsent(Without(history, timestamp), timestamp);
  }

  /** Deleting an entry just saved, under a fresh timestamp and below the cap, undoes the save. */
  lemma DeleteUndoesSave(history: seq<HistoryItem>, item: HistoryItem)
    requires |history| < MaxHistoryItems
    requires !HasTimestamp(history, item.timestamp)
    ensures Without(Saved(history, item), item.timestamp) == history
  {
    assert Saved(history, item) == [item] + history;
    WithoutAppend([item], history, item.timestamp);
    WithoutAbsent(history, item.timestamp);
    assert Without([item], item.timestamp) == [];
  }

  // ---------------------------------------------------------------- the stored list

  /** The module's functions over one local storage; a failing storage call is a `false` parameter. */
  class HistoryStore {
    var stored: Stored

    constructor (initial: Stored)
      ensures stored == initial
    {
      stored := initial;
    }

    /** `getHistory`: nothing stored and text that does not parse both read as the empty list. */
    function GetHistory(): (r: seq<HistoryItem>)
      reads this
      ensures stored.Items? ==> r == stored.items
      ensures !stored.Items? ==> r == []
    {
      if stored.Items? then stored.items else []
    }

    /** `saveToHistory(code)` at time `now`; the error of a failing write is swallowed. */
    method SaveToHistory(code: string, now: int, writeSucceeds: bool)
      modifies this
      ensures AllWhitespace(code) || !writeSucceeds ==> stored == old(stored)
      ensures !AllWhitespace(code) && writeSucceeds ==>
        stored == Items(Saved(old(GetHistory()), HistoryItem(code, now)))
    {
      if Trim(code) == "" {
        return;
      }
      var history := GetHistory();
      var newItem := HistoryItem(code, now);
      var updatedHistory := [newItem] + history;
      var limitedHistory := updatedHistory[..Min(|updatedHistory|, MaxHistoryItems)];
      if writeSucceeds {
        stored := Items(limitedHistory);
      }
    }

    /** `clearHistory`. */
    method ClearHistory(removeSucceeds: bool)
      modifies this
      ensures removeSucceeds ==> stored == Missing && GetHistory() == []
      ensures !removeSucceeds ==> stored == old(stored)
    {
      if removeSucceeds {
        stored := Missing;
      }
    }

    /** `deleteHistoryItem(timestamp)`; the error of a failing write is swallowed. */
    method DeleteHistoryItem(timestamp: int, writeSucceeds: bool)
      modifies this
      ensures writeSucceeds ==> stored == Items(Without(old(GetHistory()), timestamp))
      ensures !writeSucceeds ==> stored == old(stored)
    {
      var history := GetHistory();
      var updatedHistory := Without(history, timestamp);
      if writeSucceeds {
        stored := Items(updatedHistory);
      }
    }
  }

  // ---------------------------------------------------------------- relative age

  const MinuteMs: int := 60000
  const HourMs: int := 3600000
  const DayMs: int := 86400000

  const JustNow: string := "방금 전"
  const MinutesAgo: string := "분 전"
  const HoursAgo: string := "시간 전"
  const DaysAgo: string := "일 전"

  /**
   * `formatTimestamp(timestamp)` for an entry `diffMs` milliseconds old whose
   * local date is `date`. Dafny's `/` by a positive divisor rounds down, as
   * `Math.floor` of the quotient does.
   */
  function FormatRelative(diffMs: int, date: Chat.DateTime): (r: string)
    ensures r == JustNow <==> diffMs < MinuteMs
    ensures r != [] && (r[|r| - 1] == '전' <==> diffMs < 7 * DayMs)
    ensures diffMs >= MinuteMs ==> IsDigit(r[0])
  {
    var diffMins := diffMs / MinuteMs;
    var diffHours := diffMs / HourMs;
    var diffDays := diffMs / DayMs;
    assert !IsDigit(JustNow[0]);
    if diffMins < 1 then JustNow
    else if diffMins < 60 then Decimal(diffMins) + MinutesAgo
    else if diffHours < 24 then Decimal(diffHours) + HoursAgo
    else if diffDays < 7 then Decimal(diffDays) + DaysAgo
    else
      Decimal(date.month) + "/" + Decimal(date.day) + " "
      + Decimal(date.hours) + ":" + PadStart2(Decimal(date.minutes))
  }

  /** An age of `n` whole minutes, `n` from 1 to 59, reads "n분 전". */
  lemma MinutesAgoOf(diffMs: int, date: Chat.DateTime, n: nat)
    requires 1 <= n < 60 && n * MinuteMs <= diffMs < (n + 1) * MinuteMs
    ensures FormatRelative(diffMs, date) == Decimal(n) + MinutesAgo
  {
    assert diffMs / MinuteMs == n;
  }

  /** An age of `n` whole hours, `n` from 1 to 23, reads "n시간 전". */
  lemma HoursAgoOf(diffMs: int, date: Chat.DateTime, n: nat)
    requires 1 <= n < 24 && n * HourMs <= diffMs < (n + 1) * HourMs
    ensures FormatRelative(diffMs, date) == Decimal(n) + HoursAgo
  {
    assert diffMs / HourMs == n;
    assert diffMs / MinuteMs >= 60;
  }

  /** An age of `n` whole days, `n` from 1 to 6, reads "n일 전". */
  lemma DaysAgoOf(diffMs: int, date: Chat.DateTime, n: nat)
    requires 1 <= n < 7 && n * DayMs <= diffMs < (n + 1) * DayMs
    ensures FormatRelative(diffMs, date) == Decimal(n) + DaysAgo
  {
    assert diffMs / DayMs == n;
    assert diffMs / HourMs >= 24;
    assert diffMs / MinuteMs >= 60;
  }

  /** From seven days on, the label is the date: month/day, the hour unpadded, the minutes padded to two digits. */
  lemma DateShownOf(diffMs: int, date: Chat.DateTime)
    requires diffMs >= 7 * DayMs
    ensures FormatRelative(diffMs, date)
         == Decimal(date.month) + "/" + Decimal(date.day) + " "
            + Decimal(date.hours) + ":" + PadStart2(Decimal(date.minutes))
  {
    assert diffMs / DayMs >= 7;
    assert diffMs / HourMs >= 24;
    assert diffMs / MinuteMs >= 60;
  }

  /** Two entries labelled alike in minutes are the same number of whole minutes old. */
  lemma MinutesLabelDeterminesAge(d1: int, d2: int, date1: Chat.DateTime, date2: Chat.DateTime)
    requires MinuteMs <= d1 < HourMs && MinuteMs <= d2 < HourMs
    requires FormatRelative(d1, date1) == FormatRelative(d2, date2)
    ensures d1 / MinuteMs == d2 / MinuteMs
  {
    var n1: nat, n2: nat := d1 / MinuteMs, d2 / MinuteMs;
    var s1, s2 := Decimal(n1), Decimal(n2);
    assert FormatRelative(d1, date1) == s1 + MinutesAgo;
    assert FormatRelative(d2, date2) == s2 + MinutesAgo;
    assert s1 == (s1 + MinutesAgo)[..|s1|];
    assert s2 == (s2 + MinutesAgo)[..|s2|];
    DecimalInjective(n1, n2);
  }
}
