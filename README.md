# hangul-co in Dafny

A Dafny model of the interpreter behind hangul-co, a playground where a
learner writes one-line Korean commands such as `채팅방1.열기` or
`채팅방2.전송("안녕")` and a simulated messenger reacts to them.

The model covers six parts of the program:

- **Parser** (`parser.dfy`, lib/parser.ts). A script is split into lines and
  lines that are only whitespace are dropped. Each remaining line is trimmed,
  split on every `.`, and read with two unanchored regular expressions: the
  object pattern `([가-힣]+)(\d+)?` and the argument pattern
  `([가-힣]+)\(["'](.+?)["']\)`. The parsed commands are then converted into
  the two executable actions, select-a-room and send-a-message.
  The regular expressions are given twice:
  - as search functions that follow the engine step by step;
  - as declarative predicates: leftmost match, greedy `+`, lazy `+?`, `.` not
    matching a line terminator.

  Each search function is proved sound and complete against its predicate,
  and each predicate is proved to admit one match only. From these,
  `ParseObjectExpression(e) == Some(c)` holds exactly when `Describes(e, c)`.
- **Editor** (`editor.dfy`, components/EditorArea.tsx). The run button either
  forwards the converted actions or shows the "nothing to run" alert. The
  footer shows a line count and a UTF-16 character count.
- **Preview** (`preview.dfy`, components/PreviewArea.tsx). A class holds the
  three state variables of the chat preview. Its effect applies a batch of
  actions in order, and it has three derived selectors.
- **Chat** (`chat.dfy`, lib/chatUtils.ts). The 24-hour to Korean 12-hour
  timestamp and its read-back, and message creation with the clock and the
  random id as parameters. Also the immutable append, remove and update
  operations on a message list.
- **Chat data** (`chat_data.dfy`, constants/chatData.ts). The duplicate
  timestamp formatter, the sample rooms and conversations, and how they
  relate.
- **History** (`history.dfy`, lib/historyUtils.ts). A class over the
  local-storage slot with a newest-first list of runs capped at 20, and the
  relative-age label.

Support modules:

- `wrappers.dfy`: `Option`.
- `seqs.dfy`: `FilterMap`, which is `map` followed by `filter(Boolean)`.
- `text.dfy`: JavaScript's `trim`, `split`, `Number.prototype.toString` on
  integers below 10^21, `padStart` and `length` on strings.

Some consequences of the code are worth stating outright:

- `=` has no special meaning: `채팅목록1.클릭=채팅방1.열기` is an ordinary
  command whose action is `클릭=채팅방1` (`Parser.NoBindingSyntax`).
- `전송("")` yields no argument: the argument pattern needs at least one
  character between the quotes (`Parser.EmptyArgument`). So the converter
  drops it.
- The converter also requires a non-empty id and a non-empty argument
  (JavaScript truthiness).

The clock and `Math.random` become parameters:

- a `Stamp` per executed command in the preview: the message id and the two
  clock readings `createMessage` takes, one for the timestamp and one for the date;
- `now` and the millisecond age in the history.

A failing local-storage call is a `false` parameter, and unparsable stored
text is the `Unreadable` slot state.

## Model

| member | source | states |
|---|---|---|
| Text.Trim | lib/parser.ts:16-19 | `trim` keeps one stretch of the input with only whitespace before and after it and none at its own ends, so it removes exactly the leading and trailing JavaScript whitespace and line terminators; the result is empty iff the input is whitespace only |
| Text.TrimStart | lib/parser.ts:19 | the suffix left after every leading whitespace character is removed, and no more |
| Text.TrimEnd | lib/parser.ts:19 | the prefix left after every trailing whitespace character is removed, and no more |
| Text.TrimOfTrimmed | lib/parser.ts:19 | trimming text with no whitespace at either end gives it back |
| Text.TrimIdempotent | lib/parser.ts:16-19 | trimming twice is trimming once, so re-trimming a kept line changes nothing |
| Text.IndexOf | lib/parser.ts:36 | the position of the first occurrence of a character that occurs |
| Text.IndexOfUnique | lib/parser.ts:36 | a position holding the character with none before it is the first occurrence |
| Text.Split | lib/parser.ts:16 | `split` gives at least one piece, and no piece contains the separator |
| Text.JoinSplit | lib/parser.ts:36 | joining the pieces of a split with the separator gives the text back |
| Text.SplitCount | components/EditorArea.tsx:76 | a split has one piece more than the text has separators |
| Text.CountAppend | components/EditorArea.tsx:76 | separators of a concatenation are counted block by block |
| Text.CountAbsent | components/EditorArea.tsx:76 | helper for `Text.SplitCount` about literal text: text without the separator has none |
| Text.SplitHead | lib/parser.ts:36-40 | with no separator in `x`, the pieces of `x sep y` start with `x`, then the first piece of `y` |
| Text.SplitConcat | lib/parser.ts:16 | splitting `a sep b` gives the pieces of `a` followed by the pieces of `b` |
| Text.SplitAvoids | lib/parser.ts:16 | a character absent from the text is absent from every piece |
| Text.RunLength | lib/parser.ts:43 | the length of the maximal run of characters of one class (syllables or digits) from a position |
| Text.RunLengthUnique | lib/parser.ts:43 | any run that stops at a character outside the class is that maximal run |
| Text.DigitChar | lib/historyUtils.ts:69 | a value below ten is written as one decimal digit |
| Text.Decimal | lib/historyUtils.ts:69-78 | `toString` of a non-negative integer below 10^21 is a non-empty digit string with no leading zero, one digit exactly below ten |
| Text.DecimalRoundTrip | lib/chatUtils.ts:12-13 | reading back the digits `toString` writes gives the number |
| Text.DecimalInjective | lib/chatUtils.ts:12-13 | different numbers are written differently |
| Text.DecimalOfDigits | lib/chatUtils.ts:12-13 | every digit string without a leading zero is what `toString` writes for its value, so `toString` hits exactly those strings |
| Text.PadStart2 | lib/chatUtils.ts:13 | `padStart(2, "0")` keeps the text at the end and fills up to two characters with leading zeros |
| Text.Utf16Length | components/EditorArea.tsx:76 | `length` counts UTF-16 code units, between the number of characters and twice that |
| Text.Utf16LengthBasicPlane | components/EditorArea.tsx:76 | `length` equals the number of characters iff none lies above U+FFFF |
| Seqs.FilterMap | lib/parser.ts:70-95 | `map` then `filter(Boolean)` never lengthens the list |
| Seqs.FilterMapSnoc | lib/parser.ts:18-26 | one element more at the end adds its image, if any, at the end |
| Seqs.FilterMapAppend | lib/parser.ts:70-95 | the images of two blocks are the images of each, in order |
| Seqs.FilterMapTotal | lib/parser.ts:70-95 | when nothing is dropped, the result is the element-wise image |
| Seqs.FilterMapEmpty | lib/parser.ts:70-95 | the result is empty iff every element is dropped |
| Seqs.FilterMapFrom | lib/parser.ts:70-95 | every output is the image of some input element |
| Parser.FirstHangul | lib/parser.ts:43 | the first Hangul syllable at or after a position, or the end when there is none |
| Parser.MatchObject | lib/parser.ts:43-47 | the object match satisfies the regex semantics (leftmost, greedy, optional digits right after); no match iff there is no Hangul syllable |
| Parser.ObjectMatchUnique | lib/parser.ts:43 | the object regex semantics admit one match only |
| Parser.ObjectMatchOfRuns | lib/parser.ts:43 | the first syllable run and the digit run right after it form a match of the object regex |
| Parser.RunsOfObjectMatch | lib/parser.ts:43 | every match of the object regex is made of the whole first syllable run and the whole digit run after it |
| Parser.LazyEnd | lib/parser.ts:51 | `(.+?)["']\)` takes the shortest content free of line terminators that is followed by a quote and `)`, and fails only when none exists |
| Parser.ArgAt | lib/parser.ts:51 | an attempt of the argument pattern at one position succeeds iff the pattern matches there, with the shortest group 2 |
| Parser.SearchArg | lib/parser.ts:51 | the search returns the match at the leftmost position where the pattern matches, and none iff it matches nowhere |
| Parser.MatchArgument | lib/parser.ts:51-56 | the argument match satisfies the regex semantics (leftmost, then lazy); no match iff the pattern matches nowhere; action and argument are non-empty |
| Parser.ArgMatchUnique | lib/parser.ts:51 | the argument regex semantics admit one match only |
| Parser.SplitFields | lib/parser.ts:36-40 | `split(".")` has two pieces iff there is a `.`; the first two are the text before the first `.` and the text between the first and the second |
| Parser.ParseParts | lib/parser.ts:43-63 | no command iff the object part has no Hangul syllable; otherwise the command is what the two regexes make of the parts |
| Parser.ParseObjectExpression | lib/parser.ts:34-64 | null iff there is no `.` or no Hangul syllable before it; otherwise the command the regexes describe for the trimmed first two fields |
| Parser.ParseByFields | lib/parser.ts:36-40 | only the two trimmed fields decide the result |
| Parser.FitsPartsUnique | lib/parser.ts:43-63 | at most one command fits a pair of parts |
| Parser.FitsPartsParse | lib/parser.ts:43-63 | a command that fits the parts is the one computed |
| Parser.DescribesUnique | lib/parser.ts:34-64 | at most one command describes an expression |
| Parser.DescribedParses | lib/parser.ts:34-64 | a command that describes an expression is the one parsed (completeness) |
| Parser.ParsedCommandShape | lib/parser.ts:43-56 | a parsed command has a non-empty Hangul object, a digit id if any, and with an argument a non-empty argument and a Hangul action |
| Parser.FieldsOf | lib/parser.ts:36-40 | with no `.` in `x`, the fields of `x.y` are `x` and `y` up to its own first `.` |
| Parser.NoDotNoCommand | lib/parser.ts:37 | an expression without `.` gives null |
| Parser.OnlyFirstTwoFields | lib/parser.ts:36-40 | everything after a second `.` is ignored |
| Parser.ObjectTextHasNoDot | lib/parser.ts:36 | helper for `Parser.FieldsOfObjectExpression`, `Parser.DotInsideArgument` and `Parser.NoBindingSyntax` about literal text: a name with digits has no `.` |
| Parser.ObjectTextTrimmed | lib/parser.ts:39 | helper for `Parser.FieldsOfObjectExpression` about literal text: a name with digits is its own trim |
| Parser.ObjectOf | lib/parser.ts:43-47 | on a name followed by digits, the object regex takes the name and the digits |
| Parser.NoParenthesesNoArgument | lib/parser.ts:51 | text without `(` never matches the argument pattern |
| Parser.PlainExpression | lib/parser.ts:58-63 | `E<d>.A` with no `(` and no `.` in `A` parses to object `E`, id `d` (absent if empty), action `A` and no argument |
| Parser.FieldsOfObjectExpression | lib/parser.ts:36-40 | the trimmed fields of `E<d>.A` are `E<d>` and `A` |
| Parser.PlainFits | lib/parser.ts:43-63 | the plain command fits the fields of `E<d>.A` |
| Parser.ArgumentOf | lib/parser.ts:51-56 | `H(q1 X q2)` with a quote-free `X` matches with action `H` and argument `X`, whatever the quote kinds |
| Parser.CallExpression | lib/parser.ts:51-63 | `E<d>.H(q1 X q2)` parses to action `H` and argument `X` |
| Parser.CallTextHasNoDot | lib/parser.ts:36-40 | helper for `Parser.CallExpression` and `Editor.SendLineText` about literal text: a call text with dot-free content has no `.` and is trimmed |
| Parser.CallFits | lib/parser.ts:43-63 | the call command fits the fields of `E<d>.H(q1 X q2)` |
| Parser.ParseObjectDotNotation | lib/parser.ts:14-29 | the loop pushes, in line order, the command of each non-blank trimmed line that parses, and nothing else |
| Parser.ParseLinesStep | lib/parser.ts:18-26 | one more line adds its command, if any, at the end |
| Parser.ScriptLength | lib/parser.ts:14-28 | at most one command per non-blank line, and at most one line more than the number of line breaks |
| Parser.ScriptCommandFromLine | lib/parser.ts:14-28 | every command is the command of one line of the script |
| Parser.NonBlankLineOf | lib/parser.ts:16 | each kept line is a line of the script that `trim` does not empty |
| Parser.ScriptConcat | lib/parser.ts:14-28 | the commands of `a` newline `b` are those of `a` followed by those of `b` |
| Parser.ScriptWithoutDot | lib/parser.ts:14-37 | a script without `.` has no command |
| Parser.ScriptOfOneLine | lib/parser.ts:14-28 | a one-line script has that line's command, if any |
| Parser.ParseLinesAppend | lib/parser.ts:18-26 | the commands of two blocks of lines are those of each, in order |
| Parser.ParseLinesNoDot | lib/parser.ts:18-26 | no line with a `.` means no command |
| Parser.EmptyQuotesNoArgument | lib/parser.ts:51 | `H(q1q2)` never matches the argument pattern |
| Parser.ConvertCommand | lib/parser.ts:71-94 | select iff object `채팅방`, truthy id and an action among 열기/보여주기/선택/표시; send iff object `채팅방`, truthy id, action 전송 and truthy argument; the room id is the id and the message the argument |
| Parser.ConvertAppend | lib/parser.ts:69-96 | the converter keeps the order of its input |
| Parser.ConvertLength | lib/parser.ts:69-96 | never more actions than commands; none iff every command is dropped |
| Parser.ActionFromCommand | lib/parser.ts:73-90 | every action comes from a `채팅방` command whose id is the action's non-empty room id |
| Parser.SelectLine | lib/parser.ts:34-80 | `채팅방<d>.<A>` with `A` a select action converts to selecting room `d` |
| Parser.SendLine | lib/parser.ts:34-90 | `채팅방<d>.전송(q1 X q2)` converts to sending `X` to room `d` |
| Parser.SelectConverts | lib/parser.ts:73-80 | a `채팅방` command with an id and a select action converts to selecting that room |
| Parser.SendConverts | lib/parser.ts:82-90 | a `채팅방` command with an id, action 전송 and a non-empty argument converts to sending that argument to that room |
| Parser.DotInsideArgument | lib/parser.ts:36-56 | a `.` inside the quotes cuts the action to `H(q1 X` with no argument |
| Parser.CutHasNoDot | lib/parser.ts:36-40 | helper for `Parser.DotInsideArgument` about literal text: the cut action text has no `.` or `)` and is trimmed |
| Parser.EmptyArgument | lib/parser.ts:51-63 | `H("")` gives action `H("")` and no argument |
| Parser.NoBindingSyntax | lib/parser.ts:34-63 | `E<d>.V=F<e>.W` is an ordinary command with action `V=F<e>`; the last field is ignored |
| Parser.BindingText | lib/parser.ts:36-51 | helper for `Parser.NoBindingSyntax` about literal text: a binding-like text has no `.` or `(` and is trimmed |
| Parser.EmptyAction | lib/parser.ts:40-63 | `채팅방1.` gives the empty action |
| Editor.HandleRunCode | components/EditorArea.tsx:17-34 | the alert iff the converter drops every parsed command; otherwise one forward of the non-empty converted list |
| Editor.LineCount | components/EditorArea.tsx:68-76 | the line count is one more than the number of line breaks |
| Editor.CharCount | components/EditorArea.tsx:76 | the character count is the UTF-16 length, equal to the number of characters iff all lie in the basic plane |
| Editor.Forwards | components/EditorArea.tsx:27-33 | a non-empty conversion is forwarded as it is |
| Editor.RunConcat | components/EditorArea.tsx:17-33 | running `a` newline `b` forwards the actions of `a` then those of `b`, and alerts iff both would |
| Editor.NoDotNothingToRun | components/EditorArea.tsx:17-29 | a script without `.` always gives the alert |
| Editor.ParsedButDropped | components/EditorArea.tsx:20-29 | a line that parses with an object other than `채팅방` still gives the alert |
| Editor.LineWithoutBreak | components/EditorArea.tsx:20 | helper for `Editor.ParsedButDropped`, `Editor.SelectScriptActions` and `Editor.SendLineText` about literal text: `E<d>.A` with a trimmed break-free `A` is one trimmed line |
| Editor.SelectScript | components/EditorArea.tsx:20-33 | `채팅방<d>.<A>` with a select action forwards exactly one selection of room `d` |
| Editor.SelectScriptActions | components/EditorArea.tsx:20-21 | that script converts to exactly that selection |
| Editor.SelectActionText | components/EditorArea.tsx:20 | helper for `Editor.SelectScriptActions` about literal text: the select action names are trimmed and break-free |
| Editor.SendScript | components/EditorArea.tsx:20-33 | `채팅방<d>.전송(q1 X q2)` forwards exactly one send of `X` to room `d` |
| Editor.SendScriptActions | components/EditorArea.tsx:20-21 | that script converts to exactly that send |
| Editor.SendLineText | components/EditorArea.tsx:20 | helper for `Editor.SendScriptActions` about literal text: a send line is trimmed and break-free |
| Editor.CallTextHasNoBreak | components/EditorArea.tsx:20 | helper for `Editor.SendLineText` about literal text: a call with break-free content has no line break |
| Editor.OneLineScript | components/EditorArea.tsx:20-21 | a trimmed one-line script converts to its command's action, if any |
| Chat.DisplayHours | lib/chatUtils.ts:12 | the dial hour lies in 1..12 and agrees with the hour modulo 12 |
| Chat.FormatTimestamp | lib/chatUtils.ts:7-15 | the timestamp starts with 오전 iff the hour is below 12, otherwise 오후, then a space |
| Chat.LeadingZero | lib/chatUtils.ts:13 | a padding zero does not change the value read back |
| Chat.PeriodAndDialDetermineHour | lib/chatUtils.ts:11-12 | period and dial hour give the 24-hour hour back |
| Chat.ColonAfterDigits | lib/chatUtils.ts:15 | the first `:` after the hour digits is the separator |
| Chat.ParseTimestampOf | lib/chatUtils.ts:15 | reading `period hh:mm` gives the hour and minutes back |
| Chat.ReadDialOf | lib/chatUtils.ts:15 | reading `hh:mm` after the period gives the hour and minutes back |
| Chat.TimestampRoundTrip | lib/chatUtils.ts:7-15 | a valid clock reading is read back from its timestamp |
| Chat.FormatTimestampInjective | lib/chatUtils.ts:7-15 | different valid clock readings give different timestamps |
| Chat.TwoDigits | lib/chatUtils.ts:13 | every two-digit text is what `padStart(2, "0")` makes of its value's `toString` |
| Chat.FormatOfDial | lib/chatUtils.ts:11-15 | the hour a period and a dial hour stand for is written with that period and that dial hour |
| Chat.ParsedIsFormatted | lib/chatUtils.ts:7-15 | every text the timestamp reader accepts is the timestamp of a valid clock reading |
| Chat.TimestampExact | lib/chatUtils.ts:7-15 | the timestamp reader accepts a text for a clock reading iff the reading is valid and the text is its timestamp |
| Chat.ReadsBackAsClock | lib/chatUtils.ts:39 | a message's timestamp reads back as the clock reading `formatTimestamp()` took |
| Chat.CreateMessage | lib/chatUtils.ts:25-46 | the message has the given content, flag and id, the second clock reading as its date, a timestamp that reads back as the first clock reading, and no sender fields |
| Chat.AddMessage | lib/chatUtils.ts:62-64 | one more message: the old list as prefix, the new message last |
| Chat.RemoveMessage | lib/chatUtils.ts:72-74 | keeps exactly the messages whose id differs |
| Chat.RemoveMessageAppend | lib/chatUtils.ts:72-74 | removal keeps the order of what it keeps |
| Chat.RemoveMessageAbsent | lib/chatUtils.ts:72-74 | removing an absent id is a no-op |
| Chat.RemoveMessageIdempotent | lib/chatUtils.ts:72-74 | removing twice is removing once |
| Chat.RemoveUndoesAdd | lib/chatUtils.ts:62-74 | removing a message just added under a fresh id undoes the addition |
| Chat.Patch | lib/chatUtils.ts:88 | `{...msg, ...updates}` keeps the id, takes each given field and keeps the rest |
| Chat.PatchIdempotent | lib/chatUtils.ts:88 | applying an update twice is applying it once; an empty update changes nothing |
| Chat.UpdateMessage | lib/chatUtils.ts:83-89 | length, order and every id kept; matching messages patched, the others unchanged |
| Chat.UpdateMessageIdempotent | lib/chatUtils.ts:83-89 | updating twice is updating once |
| Chat.UpdateMessageAbsent | lib/chatUtils.ts:83-89 | updating an absent id is a no-op |
| Chat.RemoveAfterUpdate | lib/chatUtils.ts:72-89 | removing an id after updating it is removing it |
| ChatData.FormatTimestamp | constants/chatData.ts:3-12 | the duplicate formatter agrees with the one of lib/chatUtils.ts on every input |
| ChatData.MorningExample | constants/chatData.ts:35 | 07:28 is written `오전 7:28` |
| ChatData.RoomsHaveConversations | constants/chatData.ts:186-224 | every listed room has a conversation and every conversation a room |
| ChatData.OnlyFirstRoomSelected | constants/chatData.ts:186-217 | room ids are distinct and only room "1" starts out selected |
| ChatData.MessageIdsDistinct | constants/chatData.ts:31-183 | message ids are distinct within each conversation |
| Preview.Step | components/PreviewArea.tsx:28-46 | a select sets the room and opens the pane, messages unchanged; a send appends one message of mine to that room, adds no other room, and leaves the selected room and pane unchanged |
| Preview.SentTo | components/PreviewArea.tsx:32-42 | the messages a batch sends to a room are at most one per command, all mine |
| Preview.PreviewArea.constructor | components/PreviewArea.tsx:17-19 | room "1" selected, the pane closed, the sample conversations |
| Preview.PreviewArea.RunCommands | components/PreviewArea.tsx:22-48 | the loop leaves the state of the fold of `Step` over the batch |
| Preview.PreviewArea.SelectedChatRoom | components/PreviewArea.tsx:51-53 | the listed room with the selected id, none iff no listed room has it |
| Preview.PreviewArea.SelectedMessages | components/PreviewArea.tsx:56-58 | the selected room's messages, none without an entry |
| Preview.PreviewArea.UpdatedChatRooms | components/PreviewArea.tsx:61-66 | the list with each room flagged iff its id is the selected one |
| Preview.FindRoom | components/PreviewArea.tsx:52 | `find` returns the first room with the id, none iff no room has it |
| Preview.ApplyAppend | components/PreviewArea.tsx:27-47 | running two batches in turn is running their concatenation |
| Preview.NoSelectionKeepsSelected | components/PreviewArea.tsx:32-46 | a batch of sends keeps the selected room and the pane flag |
| Preview.LastSelectionWins | components/PreviewArea.tsx:28-31 | the last select of a batch decides the room, and the pane is open |
| Preview.OpenStaysOpen | components/PreviewArea.tsx:27-47 | nothing closes an open pane |
| Preview.MessagesAfterRun | components/PreviewArea.tsx:32-42 | each room ends with its old list followed by what the batch sent it, in order |
| Preview.StepMessages | components/PreviewArea.tsx:39-42 | one step appends to each room exactly the message it sends there, so every other room keeps its list |
| Preview.NothingSentTo | components/PreviewArea.tsx:32-42 | a room receives nothing iff no send of the batch names it |
| Preview.SentToOne | components/PreviewArea.tsx:36-41 | one send adds exactly one message of mine with the sent text |
| Preview.InitialChatList | components/PreviewArea.tsx:61-66 | on mount the derived list equals the sample list |
| Preview.OneRoomFlagged | components/PreviewArea.tsx:61-66 | at most one room of the derived list is flagged |
| Preview.SelectedRoomFound | components/PreviewArea.tsx:51-53 | the selected room is found iff it has a sample conversation |
| Preview.RunSelectScript | components/PreviewArea.tsx:28-31 | running a select line selects that room and opens the pane |
| Preview.RunSendScript | components/PreviewArea.tsx:32-42 | running a send line appends that message to that room and changes nothing else shown |
| Preview.ApplyOneSend | components/PreviewArea.tsx:32-42 | a batch of one send appends one message to its room |
| History.Saved | lib/historyUtils.ts:14-23 | the new item first, then the old list in order, cut to at most 20 so that only the oldest are dropped |
| History.SaveAllNewestFirst | lib/historyUtils.ts:19-23 | after a run of saves, the list is the items saved, latest first, then the older ones, cut to the newest 20 |
| History.Without | lib/historyUtils.ts:53 | keeps exactly the items with another timestamp |
| History.WithoutAppend | lib/historyUtils.ts:53 | deletion keeps the order of what it keeps |
| History.WithoutAbsent | lib/historyUtils.ts:53 | deleting an absent timestamp is a no-op |
| History.WithoutIdempotent | lib/historyUtils.ts:53 | deleting twice is deleting once |
| History.DeleteUndoesSave | lib/historyUtils.ts:14-53 | deleting an entry just saved under a fresh timestamp, below the cap, undoes the save |
| History.HistoryStore.constructor | lib/historyUtils.ts:6 | the store starts from the given slot |
| History.HistoryStore.GetHistory | lib/historyUtils.ts:31-40 | the stored list; nothing stored or unparsable text reads as empty |
| History.HistoryStore.SaveToHistory | lib/historyUtils.ts:9-29 | whitespace-only code and a failed write change nothing; otherwise the slot holds the saved list |
| History.HistoryStore.ClearHistory | lib/historyUtils.ts:42-48 | the slot is emptied, so history reads as empty; a failed removal changes nothing |
| History.HistoryStore.DeleteHistoryItem | lib/historyUtils.ts:50-58 | the slot holds the list without that timestamp; a failed write changes nothing |
| History.FormatRelative | lib/historyUtils.ts:60-79 | `방금 전` iff under a minute; the label ends in `전` iff the age is under seven days; otherwise it starts with a digit |
| History.MinutesAgoOf | lib/historyUtils.ts:64-69 | an age of `n` whole minutes, 1 to 59, reads `n분 전` |
| History.HoursAgoOf | lib/historyUtils.ts:65-70 | an age of `n` whole hours, 1 to 23, reads `n시간 전` |
| History.DaysAgoOf | lib/historyUtils.ts:66-71 | an age of `n` whole days, 1 to 6, reads `n일 전` |
| History.DateShownOf | lib/historyUtils.ts:73-78 | from seven days on, the label is `M/D H:MM`, hours unpadded and minutes padded |
| History.MinutesLabelDeterminesAge | lib/historyUtils.ts:64-69 | two ages with the same minutes label are the same number of whole minutes |

## Left out

- `createMessage` options and `generateMessageId` (lib/chatUtils.ts:28-34, 52-54): options are never passed by the core. The id and the two clock readings (the one `formatTimestamp()` takes and the later `new Date()`) are parameters (`Stamp`), since they come from the clock and `Math.random`.
- Local storage and JSON (lib/historyUtils.ts): the slot is a field of type `Stored`. Text that parses as JSON but not as a list is treated like unparsable text, and the console messages are not modelled.
- React effect scheduling and `setState` batching (components/PreviewArea.tsx:22-48): one run is a sequential fold over the batch. The updater form used for messages makes this equal to what React computes.
- The `try`/`catch` and its alert (components/EditorArea.tsx:35-38): parsing a string cannot throw. The console logging is not modelled.
- The untyped `commands: any[]` of the preview: it only receives the converter's output, so it is the closed `Action` datatype.
- `if (!trimmedLine) return;` (lib/parser.ts:20): the filter on line 16 already removed the lines it would skip, so this check is omitted from the loop.
- Rendering (ChatRoom.tsx, DrawingCanvas.tsx, ChatList.tsx, HistoryPanel.tsx, Message.tsx): these components are not part of this model.
- `handleChatRoomClick` (components/PreviewArea.tsx:69-72): its body is commented out, so there is nothing to model.
- ChatData: each sample message's timestamp text is not checked against its date. The constants are too large to unfold in the proof.
- Text.Decimal: only integers below 10^21 that a JavaScript number holds exactly are modelled. Larger ones print in exponent form or lose digits above 2^53; every caller passes a count of minutes, hours or days, or a clock field.
- Text.Utf16Length: exact only on strings without lone surrogates. A `char` here is a Unicode scalar value, so a JavaScript string with an unpaired surrogate has no counterpart.
- Editor.CharCount: exact only on strings without lone surrogates, for the same reason as `Text.Utf16Length`.
- History.FormatRelative: it takes the millisecond age and the entry's local date as parameters instead of reading `Date` and the time zone.
