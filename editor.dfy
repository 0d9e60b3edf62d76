/**
 * The editor pane of components/EditorArea.tsx: the run button's handler, which
 * parses the script, converts the commands and forwards them unless there are
 * none, and the line and character counts of its footer.
 */
module Editor {
  import opened Wrappers
  import opened Text
  import opened Seqs
  import opened Parser

  /** What a press of the run button does: the "nothing to run" alert, or one call of `onRunCode` with the actions. */
  datatype RunOutcome = NothingToRun | Forwarded(actions: seq<Action>)

  /** The text of the alert shown when there is nothing to run. */
  const NothingToRunAlert: string := "실행할 명령어가 없습니다!"

  /** `handleRunCode` on the current `code`. */
  function HandleRunCode(code: string): (r: RunOutcome)
    ensures r.NothingToRun?
        <==> forall k :: 0 <= k < |ParseScript(code)| ==> ConvertCommand(ParseScript(code)[k]).None?
    ensures r.Forwarded? ==> r.actions != [] && r.actions == ConvertToExecutableCommands(ParseScript(code))
  {
    var commands := ParseScript(code);
    var actions := ConvertToExecutableCommands(commands);
    ConvertLength(commands);
    if |actions| == 0 then NothingToRun else Forwarded(actions)
  }

  /** The number of lines the gutter shows and the footer counts: `code.split("\n").length`. */
  function LineCount(code: string): (n: nat)
    ensures n == Count(code, '\n') + 1
  {
    SplitCount(code, '\n');
    |Split(code, '\n')|
  }

  /** The footer's character count, `code.length`, in UTF-16 code units. */
  function CharCount(code: string): (n: nat)
    ensures |code| <= n <= 2 * |code|
    ensures n == |code| <==> InBasicPlane(code)
  {
    Utf16LengthBasicPlane(code);
    Utf16Length(code)
  }

  /** A run forwards exactly the converted commands whenever there is at least one. */
  lemma Forwards(code: string)
    requires ConvertToExecutableCommands(ParseScript(code)) != []
    ensures HandleRunCode(code) == Forwarded(ConvertToExecutableCommands(ParseScript(code)))
  {
  }

  /** Two scripts run one after the other on separate lines forward the actions of the first, then those of the second. */
  lemma RunConcat(a: string, b: string)
    ensures var both := HandleRunCode(a + "\n" + b);
      both.NothingToRun? <==> HandleRunCode(a).NothingToRun? && HandleRunCode(b).NothingToRun?
    ensures var both := HandleRunCode(a + "\n" + b);
      both.Forwarded? ==> both.actions == ActionsOf(HandleRunCode(a)) + ActionsOf(HandleRunCode(b))
  {
    ScriptConcat(a, b);
    ConvertAppend(ParseScript(a), ParseScript(b));
  }

  /** The actions a run forwards, none for the alert. */
  function ActionsOf(r: RunOutcome): seq<Action> {
    if r.Forwarded? then r.actions else []
  }

  /** A script without `.` never runs anything. */
  lemma NoDotNothingToRun(code: string)
    requires '.' !in code
    ensures HandleRunCode(code) == NothingToRun
  {
    ScriptWithoutDot(code);
  }

  /**
   * A line the parser accepts but the converter drops still gives the alert:
   * `E[d].A` for an object `E` other than 채팅방.
   */
  lemma ParsedButDropped(name: string, digits: string, action: string)
    requires name != [] && AllHangul(name) && AllDigits(digits) && name != ChatRoomObject
    requires '.' !in action && '(' !in action && '\n' !in action && IsTrimmed(action)
    ensures ParseScript(name + digits + "." + action)
         == [Command(name, if digits == [] then None else Some(digits), action, None)]
    ensures HandleRunCode(name + digits + "." + action) == NothingToRun
  {
    var line := name + digits + "." + action;
    NoParenthesesNoArgument(action);
    PlainExpression(name, digits, action);
    LineWithoutBreak(name, digits, action);
    TrimOfTrimmed(line);
    ScriptOfOneLine(line);
  }

  lemma LineWithoutBreak(name: string, digits: string, action: string)
    requires AllHangul(name) && AllDigits(digits) && '\n' !in action && (action == [] || IsTrimmed(action))
    requires name != []
    ensures '\n' !in name + digits + "." + action && IsTrimmed(name + digits + "." + action)
  {
    var line := name + digits + "." + action;
    assert forall j :: 0 <= j < |line| ==> IsHangul(line[j]) || IsDigit(line[j]) || line[j] == '.' || line[j] in action;
    assert line[0] == name[0];
    assert line[|line| - 1] == if action == [] then '.' else action[|action| - 1];
  }

  /** A one-line script `채팅방<d>.<A>` with `A` among 열기, 보여주기, 선택 and 표시 forwards exactly one selection of room `d`. */
  lemma SelectScript(digits: string, action: string)
    requires digits != [] && AllDigits(digits) && action in SelectActions
    ensures HandleRunCode(ChatRoomObject + digits + "." + action) == Forwarded([SelectChatRoom(digits)])
  {
    SelectScriptActions(digits, action);
    Forwards(ChatRoomObject + digits + "." + action);
  }

  lemma SelectScriptActions(digits: string, action: string)
    requires digits != [] && AllDigits(digits) && action in SelectActions
    ensures ConvertToExecutableCommands(ParseScript(ChatRoomObject + digits + "." + action)) == [SelectChatRoom(digits)]
  {
    var line := ChatRoomObject + digits + "." + action;
    SelectLine(digits, action);
    var c := ParseObjectExpression(line).value;
    assert ConvertToExecutableCommands(ParseScript(line)) == [ConvertCommand(c).value] by {
      SelectActionText(action);
      LineWithoutBreak(ChatRoomObject, digits, action);
      OneLineScript(line);
    }
  }

  lemma SelectActionText(action: string)
    requires action in SelectActions
    ensures '\n' !in action && IsTrimmed(action)
  {
  }

  /** A one-line script `채팅방<d>.전송(q1 X q2)` forwards exactly one sending of `X` to room `d`. */
  lemma SendScript(digits: string, q1: char, content: string, q2: char)
    requires digits != [] && AllDigits(digits) && IsQuote(q1) && IsQuote(q2)
    requires content != [] && '.' !in content
    requires forall j :: 0 <= j < |content| ==> !IsQuote(content[j]) && !IsLineTerminator(content[j])
    ensures HandleRunCode(ChatRoomObject + digits + "." + CallText("전송", q1, content, q2))
         == Forwarded([SendMessage(digits, content)])
  {
    SendScriptActions(digits, q1, content, q2);
    Forwards(ChatRoomObject + digits + "." + CallText("전송", q1, content, q2));
  }

  lemma SendScriptActions(digits: string, q1: char, content: string, q2: char)
    requires digits != [] && AllDigits(digits) && IsQuote(q1) && IsQuote(q2)
    requires content != [] && '.' !in content
    requires forall j :: 0 <= j < |content| ==> !IsQuote(content[j]) && !IsLineTerminator(content[j])
    ensures ConvertToExecutableCommands(ParseScript(ChatRoomObject + digits + "." + CallText("전송", q1, content, q2)))
         == [SendMessage(digits, content)]
  {
    var line := ChatRoomObject + digits + "." + CallText("전송", q1, content, q2);
    SendLine(digits, q1, content, q2);
    SendLineText(digits, q1, content, q2);
    OneLineScript(line);
  }

  lemma SendLineText(digits: string, q1: char, content: string, q2: char)
    requires digits != [] && AllDigits(digits) && IsQuote(q1) && IsQuote(q2)
    requires '.' !in content && forall j :: 0 <= j < |content| ==> !IsLineTerminator(content[j])
    ensures var line := ChatRoomObject + digits + "." + CallText("전송", q1, content, q2);
      '\n' !in line && IsTrimmed(line)
  {
    var a := CallText("전송", q1, content, q2);
    CallTextHasNoDot("전송", q1, content, q2);
    CallTextHasNoBreak("전송", q1, content, q2);
    LineWithoutBreak(ChatRoomObject, digits, a);
  }

  lemma CallTextHasNoBreak(action: string, q1: char, content: string, q2: char)
    requires AllHangul(action) && IsQuote(q1) && IsQuote(q2)
    requires forall j :: 0 <= j < |content| ==> !IsLineTerminator(content[j])
    ensures '\n' !in CallText(action, q1, content, q2)
  {
    var a := CallText(action, q1, content, q2);
    assert forall j :: 0 <= j < |a| ==> a[j] == '(' || a[j] == ')' || IsQuote(a[j]) || IsHangul(a[j]) || a[j] in content;
  }

  /** A one-line script whose line is trimmed and parses converts to what its command converts to. */
  lemma OneLineScript(line: string)
    requires '\n' !in line && IsTrimmed(line) && ParseObjectExpression(line).Some?
    ensures var c := ParseObjectExpression(line).value;
      ConvertToExecutableCommands(ParseScript(line)) == if ConvertCommand(c).Some? then [ConvertCommand(c).value] else []
  {
    var c := ParseObjectExpression(line).value;
    TrimOfTrimmed(line);
    ScriptOfOneLine(line);
    assert ParseScript(line) == [c];
    FilterMapSnoc(ConvertCommand, [], c);
    assert [] + [c] == [c];
  }
}
