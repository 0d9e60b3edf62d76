/**
 * The chat data types of components/chat/types.ts and the message helpers of
 * lib/chatUtils.ts: the 24-hour to Korean 12-hour timestamp conversion,
 * message creation with the clock and the random id passed in, and the
 * immutable append / remove / update operations on a room's message list.
 */
module Chat {
  import opened Wrappers
  import opened Text

  /** A local wall-clock reading of a JavaScript `Date`; `month` is the calendar month, `getMonth() + 1`. */
  datatype DateTime = DateTime(year: int, month: nat, day: nat, hours: nat, minutes: nat, seconds: nat)

  /** One chat message; optional fields that may be absent are `Option`s. */
  datatype MessageData = MessageData(
    id: string,
    content: string,
    timestamp: string,
    date: Option<DateTime>,
    isMine: bool,
    senderName: Option<string>,
    senderAvatar: Option<string>,
    senderAvatarColor: Option<string>,
    imageUrl: Option<string>)

  /** One entry of the chat list. */
  datatype ChatRoomData = ChatRoomData(
    id: string,
    name: string,
    avatar: string,
    avatarColor: string,
    lastMessage: string,
    lastMessageTime: string,
    unreadCount: nat,
    isSelected: Option<bool>)

  // ---------------------------------------------------------------- 12-hour timestamps

  const Am: string := "오전"
  const Pm: string := "오후"

  /** A time of day on the 24-hour clock. */
  datatype Clock = Clock(hours: nat, minutes: nat)

  predicate ValidClock(c: Clock) {
    c.hours < 24 && c.minutes < 60
  }

  /** The hour shown on a 12-hour dial: 12 for a multiple of 12, else the remainder. */
  function DisplayHours(hours: nat): (h: nat)
    ensures 1 <= h <= 12
    ensures h % 12 == hours % 12
  {
    if hours % 12 == 0 then 12 else hours % 12
  }

  /** `formatTimestamp(date)` for a date whose `getHours()` is `hours` and `getMinutes()` is `minutes`. */
  function FormatTimestamp(hours: nat, minutes: nat): (r: string)
    ensures |r| >= 7
    ensures r[..2] == (if hours < 12 then Am else Pm) && r[2] == ' '
  {
    var period := if hours < 12 then Am else Pm;
    period + " " + Decimal(DisplayHours(hours)) + ":" + PadStart2(Decimal(minutes))
  }

  /** The 24-hour hour that a period and a dial hour (1 to 12) stand for. */
  function HourOf(period: string, dial: nat): nat {
    if period == Am then (if dial == 12 then 0 else dial)
    else (if dial == 12 then 12 else dial + 12)
  }

  /** Reads the "h:mm" part of a timestamp, after its period: an hour from 1 to 12 without a leading zero, then two minute digits below 60. */
  function ReadDial(period: string, rest: string): Option<Clock> {
    if ':' !in rest then None
    else
      var i := IndexOf(rest, ':');
      var hh, mm := rest[..i], rest[i + 1..];
      if !(1 <= |hh| && AllDigits(hh) && hh[0] != '0' && |mm| == 2 && AllDigits(mm)) then None
      else if !(1 <= DigitsValue(hh) <= 12 && DigitsValue(mm) < 60) then None
      else Some(Clock(HourOf(period, DigitsValue(hh)), DigitsValue(mm)))
  }

  /** Reads a "오전 h:mm" / "오후 h:mm" timestamp back into a 24-hour clock reading. */
  function ParseTimestamp(s: string): Option<Clock> {
    if |s| < 3 || s[2] != ' ' || (s[..2] != Am && s[..2] != Pm) then None
    else ReadDial(s[..2], s[3..])
  }

  lemma {:induction false} LeadingZero(s: string)
    requires AllDigits(s)
    ensures AllDigits(['0'] + s) && DigitsValue(['0'] + s) == DigitsValue(s)
    decreases |s|
  {
    if s != [] {
      var t := ['0'] + s;
      assert t[..|t| - 1] == ['0'] + s[..|s| - 1];
      LeadingZero(s[..|s| - 1]);
    }
  }

  /** The period and the dial hour together recover the 24-hour hour. */
  lemma PeriodAndDialDetermineHour(hours: nat)
    requires hours < 24
    ensures HourOf(if hours < 12 then Am else Pm, DisplayHours(hours)) == hours
  {
  }

  lemma ColonAfterDigits(hh: string, mm: string)
    requires AllDigits(hh)
    ensures var rest := hh + ":" + mm;
      ':' in rest && IndexOf(rest, ':') == |hh| && rest[..|hh|] == hh && rest[|hh| + 1..] == mm
  {
    var rest := hh + ":" + mm;
    assert rest[|hh|] == ':';
    assert rest[..|hh|] == hh;
  }

  /** How `ParseTimestamp` reads a well-shaped timestamp. */
  lemma ParseTimestampOf(period: string, hh: string, mm: string)
    requires period == Am || period == Pm
    requires 1 <= |hh| && AllDigits(hh) && hh[0] != '0' && 1 <= DigitsValue(hh) <= 12
    requires |mm| == 2 && AllDigits(mm) && DigitsValue(mm) < 60
    ensures ParseTimestamp(period + " " + hh + ":" + mm) == Some(Clock(HourOf(period, DigitsValue(hh)), DigitsValue(mm)))
  {
    var rest := hh + ":" + mm;
    var s := period + " " + hh + ":" + mm;
    assert s == period + " " + rest;
    assert |period| == 2;
    assert s[..2] == period && s[2] == ' ' && s[3..] == rest;
    ReadDialOf(period, hh, mm);
  }

  lemma ReadDialOf(period: string, hh: string, mm: string)
    requires 1 <= |hh| && AllDigits(hh) && hh[0] != '0' && 1 <= DigitsValue(hh) <= 12
    requires |mm| == 2 && AllDigits(mm) && DigitsValue(mm) < 60
    ensures ReadDial(period, hh + ":" + mm) == Some(Clock(HourOf(period, DigitsValue(hh)), DigitsValue(mm)))
  {
    ColonAfterDigits(hh, mm);
  }

  /**
   * The 12-hour text loses nothing: for every valid time of day it reads back as
   * that time, so two different times never show the same text.
   */
  lemma TimestampRoundTrip(c: Clock)
    requires ValidClock(c)
    ensures ParseTimestamp(FormatTimestamp(c.hours, c.minutes)) == Some(c)
  {
    var hh := Decimal(DisplayHours(c.hours));
    var mm := PadStart2(Decimal(c.minutes));
    DecimalRoundTrip(DisplayHours(c.hours));
    DecimalRoundTrip(c.minutes);
    if c.minutes < 10 {
      assert mm == ['0'] + Decimal(c.minutes);
      LeadingZero(Decimal(c.minutes));
    }
    assert AllDigits(mm) && DigitsValue(mm) == c.minutes;
    ParseTimestampOf(if c.hours < 12 then Am else Pm, hh, mm);
    PeriodAndDialDetermineHour(c.hours);
  }

  /** Two digits are what `PadStart2(Decimal(_))` writes for the number they denote. */
  lemma TwoDigits(mm: string)
    requires |mm| == 2 && AllDigits(mm)
    ensures PadStart2(Decimal(DigitsValue(mm))) == mm
  {
    if mm[0] == '0' {
      LeadingZero(mm[1..]);
      assert ['0'] + mm[1..] == mm;
      DecimalOfDigits(mm[1..]);
    } else {
      DecimalOfDigits(mm);
    }
  }

  /** A period and a dial hour name a 24-hour hour that is written back with that period and that dial hour. */
  lemma FormatOfDial(period: string, dial: nat, minutes: nat)
    requires period == Am || period == Pm
    requires 1 <= dial <= 12
    ensures HourOf(period, dial) < 24
    ensures FormatTimestamp(HourOf(period, dial), minutes) == period + " " + Decimal(dial) + ":" + PadStart2(Decimal(minutes))
  {
    var hours := HourOf(period, dial);
    assert DisplayHours(hours) == dial;
    assert (hours < 12) == (period == Am);
  }

  /** Whatever `ParseTimestamp` accepts is the timestamp of a valid time of day, written as `formatTimestamp()` writes it. */
  lemma ParsedIsFormatted(s: string, c: Clock)
    requires ParseTimestamp(s) == Some(c)
    ensures ValidClock(c) && FormatTimestamp(c.hours, c.minutes) == s
  {
    var period, rest := s[..2], s[3..];
    assert ReadDial(period, rest) == Some(c);
    var i := IndexOf(rest, ':');
    var hh, mm := rest[..i], rest[i + 1..];
    assert 1 <= |hh| && AllDigits(hh) && hh[0] != '0' && |mm| == 2 && AllDigits(mm);
    assert c == Clock(HourOf(period, DigitsValue(hh)), DigitsValue(mm));
    DecimalOfDigits(hh);
    TwoDigits(mm);
    FormatOfDial(period, DigitsValue(hh), DigitsValue(mm));
    TimestampParts(s, i);
  }

  /** A timestamp is its period, the space, the dial hour, the colon and the minutes, in that order. */
  lemma TimestampParts(s: string, i: nat)
    requires 3 + i < |s| && s[2] == ' ' && s[3 + i] == ':'
    ensures s == s[..2] + " " + s[3..][..i] + ":" + s[3..][i + 1..]
  {
    var t := s[..2] + " " + s[3..][..i] + ":" + s[3..][i + 1..];
    assert |t| == |s|;
    forall k | 0 <= k < |s| ensures t[k] == s[k] {
    }
  }

  /** `ParseTimestamp` accepts exactly the texts `formatTimestamp()` writes, and reads each back as its time of day. */
  lemma TimestampExact(s: string, c: Clock)
    ensures ParseTimestamp(s) == Some(c) <==> ValidClock(c) && s == FormatTimestamp(c.hours, c.minutes)
  {
    if ParseTimestamp(s) == Some(c) {
      ParsedIsFormatted(s, c);
    }
    if ValidClock(c) && s == FormatTimestamp(c.hours, c.minutes) {
      TimestampRoundTrip(c);
    }
  }

  /** Two valid times of day are formatted alike only when they are the same time. */
  lemma FormatTimestampInjective(c: Clock, d: Clock)
    requires ValidClock(c) && ValidClock(d)
    requires FormatTimestamp(c.hours, c.minutes) == FormatTimestamp(d.hours, d.minutes)
    ensures c == d
  {
    TimestampRoundTrip(c);
    TimestampRoundTrip(d);
  }

  // ---------------------------------------------------------------- message creation

  /** The timestamp `formatTimestamp()` writes for a clock reading reads back as that reading's hour and minute. */
  lemma ReadsBackAsClock(shown: DateTime)
    ensures ValidClock(Clock(shown.hours, shown.minutes)) ==>
      ParseTimestamp(FormatTimestamp(shown.hours, shown.minutes)) == Some(Clock(shown.hours, shown.minutes))
  {
    if ValidClock(Clock(shown.hours, shown.minutes)) {
      TimestampRoundTrip(Clock(shown.hours, shown.minutes));
    }
  }

  /**
   * `createMessage(content, isMine)` without options. The id that `generateMessageId`
   * builds from the clock and `Math.random` is a parameter, and so are the two
   * readings of the clock: `shown`, which `formatTimestamp()` takes for the
   * timestamp, and `now`, the second `new Date()` kept as the date.
   */
  function CreateMessage(content: string, isMine: bool, id: string, shown: DateTime, now: DateTime): (m: MessageData)
    ensures m.id == id && m.content == content && m.isMine == isMine && m.date == Some(now)
    ensures ValidClock(Clock(shown.hours, shown.minutes)) ==> ParseTimestamp(m.timestamp) == Some(Clock(shown.hours, shown.minutes))
    ensures m.senderName.None? && m.senderAvatar.None? && m.senderAvatarColor.None? && m.imageUrl.None?
  {
    ReadsBackAsClock(shown);
    MessageData(id, content, FormatTimestamp(shown.hours, shown.minutes), Some(now), isMine, None, None, None, None)
  }

  // ---------------------------------------------------------------- message lists

  /** `addMessage`: a new list with `newMessage` after all the old ones. */
  function AddMessage(messages: seq<MessageData>, newMessage: MessageData): (r: seq<MessageData>)
    ensures |r| == |messages| + 1
    ensures r[..|messages|] == messages && r[|messages|] == newMessage
  {
    messages + [newMessage]
  }

  /** `removeMessage`: the messages whose id differs from `messageId`, in their order. */
  function RemoveMessage(messages: seq<MessageData>, messageId: string): (r: seq<MessageData>)
    ensures |r| <= |messages|
    ensures forall m :: m in r ==> m in messages && m.id != messageId
    ensures forall m :: m in messages && m.id != messageId ==> m in r
  {
    if messages == [] then []
    else (if messages[0].id != messageId then [messages[0]] else []) + RemoveMessage(messages[1..], messageId)
  }

  predicate HasId(messages: seq<MessageData>, messageId: string) {
    exists m :: m in messages && m.id == messageId
  }

  /** Removal works message by message: it keeps the order of what it keeps. */
  lemma {:induction false} RemoveMessageAppend(a: seq<MessageData>, b: seq<MessageData>, messageId: string)
    ensures RemoveMessage(a + b, messageId) == RemoveMessage(a, messageId) + RemoveMessage(b, messageId)
  {
    if a == [] {
      assert a + b == b;
    } else {
      var head := if a[0].id != messageId then [a[0]] else [];
      assert (a + b)[0] == a[0];
      assert (a + b)[1..] == a[1..] + b;
      calc {
        RemoveMessage(a + b, messageId);
        head + RemoveMessage(a[1..] + b, messageId);
        { RemoveMessageAppend(a[1..], b, messageId); }
        head + (RemoveMessage(a[1..], messageId) + RemoveMessage(b, messageId));
        (head + RemoveMessage(a[1..], messageId)) + RemoveMessage(b, messageId);
      }
    }
  }

  /** Removing an id that no message has gives the same list back. */
  lemma {:induction false} RemoveMessageAbsent(messages: seq<MessageData>, messageId: string)
    requires !HasId(messages, messageId)
    ensures RemoveMessage(messages, messageId) == messages
  {
    if messages != [] {
      assert messages[0] in messages;
      assert !HasId(messages[1..], messageId) by {
        forall m | m in messages[1..] ensures m.id != messageId {
          assert m in messages;
        }
      }
      RemoveMessageAbsent(messages[1..], messageId);
    }
  }

  /** Removing the same id twice is the same as removing it once. */
  lemma RemoveMessageIdempotent(messages: seq<MessageData>, messageId: string)
    ensures RemoveMessage(RemoveMessage(messages, messageId), messageId) == RemoveMessage(messages, messageId)
  {
    RemoveMessageAbsent(RemoveMessage(messages, messageId), messageId);
  }

  /** Removing a message just added, under an id no earlier message has, undoes the addition. */
  lemma RemoveUndoesAdd(messages: seq<MessageData>, newMessage: MessageData)
    requires !HasId(messages, newMessage.id)
    ensures RemoveMessage(AddMessage(messages, newMessage), newMessage.id) == messages
  {
    RemoveMessageAppend(messages, [newMessage], newMessage.id);
    RemoveMessageAbsent(messages, newMessage.id);
    assert RemoveMessage([newMessage], newMessage.id) == [];
  }

  /**
   * The fields of `Partial<Omit<MessageData, "id">>`: `None` is a key the update
   * object does not have; `Some(v)` overrides with `v`. For the optional fields,
   * `Some(None)` is a key present with the value `undefined`.
   */
  datatype MessagePatch = MessagePatch(
    content: Option<string>,
    timestamp: Option<string>,
    date: Option<Option<DateTime>>,
    isMine: Option<bool>,
    senderName: Option<Option<string>>,
    senderAvatar: Option<Option<string>>,
    senderAvatarColor: Option<Option<string>>,
    imageUrl: Option<Option<string>>)

  const NoChanges: MessagePatch := MessagePatch(None, None, None, None, None, None, None, None)

  /** `{ ...msg, ...updates }`: every key the update has overrides the message's. */
  function Patch(m: MessageData, u: MessagePatch): (r: MessageData)
    ensures r.id == m.id
  {
    MessageData(
      m.id,
      u.content.GetOr(m.content),
      u.timestamp.GetOr(m.timestamp),
      u.date.GetOr(m.date),
      u.isMine.GetOr(m.isMine),
      u.senderName.GetOr(m.senderName),
      u.senderAvatar.GetOr(m.senderAvatar),
      u.senderAvatarColor.GetOr(m.senderAvatarColor),
      u.imageUrl.GetOr(m.imageUrl))
  }

  /** Applying the same update twice is applying it once; the empty update changes nothing. */
  lemma PatchIdempotent(m: MessageData, u: MessagePatch)
    ensures Patch(Patch(m, u), u) == Patch(m, u)
    ensures Patch(m, NoChanges) == m
  {
  }

  /** `updateMessage`: each message with the given id gets the update; every other message is kept. */
  function UpdateMessage(messages: seq<MessageData>, messageId: string, updates: MessagePatch): (r: seq<MessageData>)
    ensures |r| == |messages|
    ensures forall k :: 0 <= k < |r| ==> r[k].id == messages[k].id
    ensures forall k :: 0 <= k < |r| && messages[k].id != messageId ==> r[k] == messages[k]
    ensures forall k :: 0 <= k < |r| && messages[k].id == messageId ==> r[k] == Patch(messages[k], updates)
  {
    seq(|messages|, k requires 0 <= k < |messages| =>
      if messages[k].id == messageId then Patch(messages[k], updates) else messages[k])
  }

  /** Updating the same message twice with the same update is updating it once. */
  lemma UpdateMessageIdempotent(messages: seq<MessageData>, messageId: string, updates: MessagePatch)
    ensures UpdateMessage(UpdateMessage(messages, messageId, updates), messageId, updates)
         == UpdateMessage(messages, messageId, updates)
  {
    var once := UpdateMessage(messages, messageId, updates);
    var twice := UpdateMessage(once, messageId, updates);
    forall k | 0 <= k < |messages| ensures twice[k] == once[k] {
      PatchIdempotent(messages[k], updates);
    }
  }

  /** Updating an id that no message has gives the same list back. */
  lemma UpdateMessageAbsent(messages: seq<MessageData>, messageId: string, updates: MessagePatch)
    requires !HasId(messages, messageId)
    ensures UpdateMessage(messages, messageId, updates) == messages
  {
    var r := UpdateMessage(messages, messageId, updates);
    forall k | 0 <= k < |messages| ensures r[k] == messages[k] {
      assert messages[k] in messages;
    }
  }

  /** An update never touches ids, so removing afterwards removes the same messages' places. */
  lemma {:induction false} RemoveAfterUpdate(messages: seq<MessageData>, messageId: string, updates: MessagePatch)
    ensures RemoveMessage(UpdateMessage(messages, messageId, updates), messageId) == RemoveMessage(messages, messageId)
  {
    if messages != [] {
      var r := UpdateMessage(messages, messageId, updates);
      assert r[1..] == UpdateMessage(messages[1..], messageId, updates);
      RemoveAfterUpdate(messages[1..], messageId, updates);
    }
  }
}
