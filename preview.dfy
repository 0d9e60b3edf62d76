/**
 * The chat preview of components/PreviewArea.tsx: its three pieces of state,
 * the effect that applies a batch of executable commands to them in order,
 * and the derived values the chat list and the open room are drawn from.
 */
module Preview {
  import opened Wrappers
  import opened Parser
  import Editor
  import Chat
  import ChatData

  type MessageData = Chat.MessageData
  type ChatRoomData = Chat.ChatRoomData
  type Conversations = map<string, seq<MessageData>>

  /**
   * What `createMessage` reads from outside for one `sendMessage`: the generated id,
   * the clock as `formatTimestamp()` reads it, and the clock as the later `new Date()` reads it.
   */
  datatype Stamp = Stamp(id: string, shown: Chat.DateTime, now: Chat.DateTime)

  /** The three state variables at one moment. */
  datatype View = View(selectedChatRoomId: string, isChatRoomOpen: bool, chatRoomMessages: Conversations)

  /** The state on mount: room "1" selected, the pane closed, the sample conversations. */
  const Initial: View := View("1", false, ChatData.ChatRoomMessages)

  /** `prev[roomId] || []`: a room's messages, none for a room without an entry. */
  function MessagesOf(conversations: Conversations, roomId: string): seq<MessageData> {
    if roomId in conversations then conversations[roomId] else []
  }

  /** The message a `sendMessage` appends: mine, with its text, id and time. */
  function Sent(message: string, stamp: Stamp): MessageData {
    Chat.CreateMessage(message, true, stamp.id, stamp.shown, stamp.now)
  }

  /** One turn of the `forEach`. */
  function Step(v: View, command: Action, stamp: Stamp): (r: View)
    ensures command.SelectChatRoom? ==>
      r.selectedChatRoomId == command.roomId && r.isChatRoomOpen && r.chatRoomMessages == v.chatRoomMessages
    ensures command.SendMessage? ==>
      && r.selectedChatRoomId == v.selectedChatRoomId && r.isChatRoomOpen == v.isChatRoomOpen
      && command.roomId in r.chatRoomMessages
      && MessagesOf(r.chatRoomMessages, command.roomId)
         == MessagesOf(v.chatRoomMessages, command.roomId) + [Sent(command.message, stamp)]
      && r.chatRoomMessages.Keys == v.chatRoomMessages.Keys + {command.roomId}
  {
    match command
    case SelectChatRoom(roomId) => v.(selectedChatRoomId := roomId, isChatRoomOpen := true)
    case SendMessage(roomId, message) =>
      var messages := MessagesOf(v.chatRoomMessages, roomId) + [Sent(message, stamp)];
      v.(chatRoomMessages := v.chatRoomMessages[roomId := messages])
  }

  /** The whole effect: the commands applied in list order, the `k`-th with the `k`-th stamp. */
  function Apply(v: View, commands: seq<Action>, stamps: seq<Stamp>): View
    requires |stamps| == |commands|
    decreases |commands|
  {
    if commands == [] then v else Apply(Step(v, commands[0], stamps[0]), commands[1..], stamps[1..])
  }

  /** The messages a batch sends to `roomId`, in the order of the batch. */
  function SentTo(roomId: string, commands: seq<Action>, stamps: seq<Stamp>): (r: seq<MessageData>)
    requires |stamps| == |commands|
    ensures |r| <= |commands|
    ensures forall k :: 0 <= k < |r| ==> r[k].isMine
  {
    if commands == [] then []
    else SentBy(commands[0], stamps[0], roomId) + SentTo(roomId, commands[1..], stamps[1..])
  }

  /** What one command sends to `roomId`: its message for a send to that room, else nothing. */
  function SentBy(command: Action, stamp: Stamp, roomId: string): seq<MessageData>
  {
    if command.SendMessage? && command.roomId == roomId then [Sent(command.message, stamp)] else []
  }

  /** The object behind the component: its state variables and the command effect. */
  class PreviewArea {
    var selectedChatRoomId: string
    var isChatRoomOpen: bool
    var chatRoomMessages: Conversations

    function State(): View
      reads this
    {
      View(selectedChatRoomId, isChatRoomOpen, chatRoomMessages)
    }

    constructor ()
      ensures State() == Initial
    {
      selectedChatRoomId := "1";
      isChatRoomOpen := false;
      chatRoomMessages := ChatData.ChatRoomMessages;
    }

    /** The effect run when `commands` changes; `stamps` stand for the clock and the random ids it reads. */
    method RunCommands(commands: seq<Action>, stamps: seq<Stamp>)
      requires |stamps| == |commands|
      modifies this
      ensures State() == Apply(old(State()), commands, stamps)
    {
      if |commands| == 0 {
        return;
      }
      var i := 0;
      while i < |commands|
        invariant 0 <= i <= |commands|
        decreases |commands| - i
        invariant Apply(old(State()), commands, stamps) == Apply(State(), commands[i..], stamps[i..])
      {
        var command := commands[i];
        match command {
          case SelectChatRoom(roomId) =>
            selectedChatRoomId := roomId;
            isChatRoomOpen := true;
          case SendMessage(roomId, message) =>
            var newMessage := Chat.CreateMessage(message, true, stamps[i].id, stamps[i].shown, stamps[i].now);
            var previous := if roomId in chatRoomMessages then chatRoomMessages[roomId] else [];
            chatRoomMessages := chatRoomMessages[roomId := previous + [newMessage]];
        }
        assert commands[i..][1..] == commands[i + 1..] && stamps[i..][1..] == stamps[i + 1..];
        i := i + 1;
      }
    }

    /** `selectedChatRoom`. */
    function SelectedChatRoom(): (r: Option<ChatRoomData>)
      reads this
      ensures r.Some? ==> r.value in ChatData.SampleChatRooms && r.value.id == selectedChatRoomId
      ensures r.None? <==> forall room :: room in ChatData.SampleChatRooms ==> room.id != selectedChatRoomId
    {
      FindRoom(ChatData.SampleChatRooms, selectedChatRoomId)
    }

    /** `selectedMessages`. */
    function SelectedMessages(): (r: seq<MessageData>)
      reads this
      ensures selectedChatRoomId in chatRoomMessages ==> r == chatRoomMessages[selectedChatRoomId]
      ensures selectedChatRoomId !in chatRoomMessages ==> r == []
    {
      MessagesOf(chatRoomMessages, selectedChatRoomId)
    }

    /** `updatedChatRooms`. */
    function UpdatedChatRooms(): (r: seq<ChatRoomData>)
      reads this
      ensures |r| == |ChatData.SampleChatRooms|
      ensures forall k :: 0 <= k < |r| ==>
        r[k] == ChatData.SampleChatRooms[k].(isSelected := Some(ChatData.SampleChatRooms[k].id == selectedChatRoomId))
    {
      MarkSelected(ChatData.SampleChatRooms, selectedChatRoomId)
    }
  }

  /** `rooms.find((room) => room.id === id)`: the first room with that id. */
  function FindRoom(rooms: seq<ChatRoomData>, id: string): (r: Option<ChatRoomData>)
    ensures r.Some? ==> r.value in rooms && r.value.id == id
    ensures r.Some? ==> exists k :: 0 <= k < |rooms| && rooms[k] == r.value && forall j :: 0 <= j < k ==> rooms[j].id != id
    ensures r.None? <==> forall room :: room in rooms ==> room.id != id
  {
    if rooms == [] then None
    else if rooms[0].id == id then Some(rooms[0])
    else
      var r := FindRoom(rooms[1..], id);
      assert forall room :: room in rooms[1..] ==> room in rooms;
      assert forall room :: room in rooms ==> room == rooms[0] || room in rooms[1..];
      if r.Some? then
        var k :| 0 <= k < |rooms[1..]| && rooms[1..][k] == r.value && forall j :: 0 <= j < k ==> rooms[1..][j].id != id;
        assert rooms[k + 1] == r.value;
        r
      else r
  }

  /** `rooms.map((room) => ({...room, isSelected: room.id === id}))`. */
  function MarkSelected(rooms: seq<ChatRoomData>, id: string): seq<ChatRoomData> {
    seq(|rooms|, k requires 0 <= k < |rooms| => rooms[k].(isSelected := Some(rooms[k].id == id)))
  }

  // ---------------------------------------------------------------- properties of a run

  /** Running two batches one after the other is running their concatenation. */
  lemma {:induction false} ApplyAppend(v: View, a: seq<Action>, sa: seq<Stamp>, b: seq<Action>, sb: seq<Stamp>)
    requires |sa| == |a| && |sb| == |b|
    ensures Apply(v, a + b, sa + sb) == Apply(Apply(v, a, sa), b, sb)
    decreases |a|
  {
    if a == [] {
      assert a + b == b && sa + sb == sb;
    } else {
      assert (a + b)[0] == a[0] && (sa + sb)[0] == sa[0];
      assert (a + b)[1..] == a[1..] + b && (sa + sb)[1..] == sa[1..] + sb;
      ApplyAppend(Step(v, a[0], sa[0]), a[1..], sa[1..], b, sb);
    }
  }

  /** Without any `selectChatRoom`, a batch changes neither the selected room nor the open flag. */
  lemma {:induction false} NoSelectionKeepsSelected(v: View, commands: seq<Action>, stamps: seq<Stamp>)
    requires |stamps| == |commands|
    requires forall k :: 0 <= k < |commands| ==> commands[k].SendMessage?
    ensures Apply(v, commands, stamps).selectedChatRoomId == v.selectedChatRoomId
    ensures Apply(v, commands, stamps).isChatRoomOpen == v.isChatRoomOpen
    decreases |commands|
  {
    if commands != [] {
      NoSelectionKeepsSelected(Step(v, commands[0], stamps[0]), commands[1..], stamps[1..]);
    }
  }

  /** After a batch, the selected room is the one of its last `selectChatRoom`, and the pane is open. */
  lemma {:induction false} LastSelectionWins(v: View, commands: seq<Action>, stamps: seq<Stamp>, k: nat)
    requires |stamps| == |commands|
    requires k < |commands| && commands[k].SelectChatRoom?
    requires forall j :: k < j < |commands| ==> commands[j].SendMessage?
    ensures Apply(v, commands, stamps).selectedChatRoomId == commands[k].roomId
    ensures Apply(v, commands, stamps).isChatRoomOpen
    decreases |commands|
  {
    var v' := Step(v, commands[0], stamps[0]);
    if k == 0 {
      NoSelectionKeepsSelected(v', commands[1..], stamps[1..]);
    } else {
      LastSelectionWins(v', commands[1..], stamps[1..], k - 1);
    }
  }

  /** Nothing closes the pane once it is open. */
  lemma {:induction false} OpenStaysOpen(v: View, commands: seq<Action>, stamps: seq<Stamp>)
    requires |stamps| == |commands| && v.isChatRoomOpen
    ensures Apply(v, commands, stamps).isChatRoomOpen
    decreases |commands|
  {
    if commands != [] {
      OpenStaysOpen(Step(v, commands[0], stamps[0]), commands[1..], stamps[1..]);
    }
  }

  /**
   * After a batch, each room's list is its old list followed by the messages the
   * batch sent to it, in order; a room the batch sends nothing to keeps its list.
   */
  lemma {:induction false} MessagesAfterRun(v: View, commands: seq<Action>, stamps: seq<Stamp>, roomId: string)
    requires |stamps| == |commands|
    ensures MessagesOf(Apply(v, commands, stamps).chatRoomMessages, roomId)
         == MessagesOf(v.chatRoomMessages, roomId) + SentTo(roomId, commands, stamps)
    decreases |commands|
  {
    if commands != [] {
      var v' := Step(v, commands[0], stamps[0]);
      UnfoldFirst(v, commands, stamps, roomId);
      MessagesAfterRun(v', commands[1..], stamps[1..], roomId);
      StepMessages(v, commands[0], stamps[0], roomId);
      Chain(MessagesOf(Apply(v, commands, stamps).chatRoomMessages, roomId),
            MessagesOf(Apply(v', commands[1..], stamps[1..]).chatRoomMessages, roomId),
            MessagesOf(v'.chatRoomMessages, roomId), MessagesOf(v.chatRoomMessages, roomId),
            SentBy(commands[0], stamps[0], roomId), SentTo(roomId, commands[1..], stamps[1..]));
    }
  }

  /** Threads one list equation through another: the shape of the inductive step above. */
  lemma Chain<T>(after: seq<T>, afterRest: seq<T>, middle: seq<T>, before: seq<T>, first: seq<T>, rest: seq<T>)
    requires after == afterRest && afterRest == middle + rest && middle == before + first
    ensures after == before + (first + rest)
  {
  }

  /** `Apply` and `SentTo` on a non-empty batch, one command unfolded. */
  lemma UnfoldFirst(v: View, commands: seq<Action>, stamps: seq<Stamp>, roomId: string)
    requires |stamps| == |commands| && commands != []
    ensures MessagesOf(Apply(v, commands, stamps).chatRoomMessages, roomId)
         == MessagesOf(Apply(Step(v, commands[0], stamps[0]), commands[1..], stamps[1..]).chatRoomMessages, roomId)
    ensures SentTo(roomId, commands, stamps)
         == SentBy(commands[0], stamps[0], roomId) + SentTo(roomId, commands[1..], stamps[1..])
  {
  }

  /** One command changes a room's list only by appending what it sends to that room. */
  lemma StepMessages(v: View, command: Action, stamp: Stamp, roomId: string)
    ensures MessagesOf(Step(v, command, stamp).chatRoomMessages, roomId)
         == MessagesOf(v.chatRoomMessages, roomId) + SentBy(command, stamp, roomId)
  {
  }

  /** A batch sends nothing to a room exactly when none of its `sendMessage`s names that room. */
  lemma {:induction false} NothingSentTo(roomId: string, commands: seq<Action>, stamps: seq<Stamp>)
    requires |stamps| == |commands|
    ensures SentTo(roomId, commands, stamps) == []
        <==> forall k :: 0 <= k < |commands| && commands[k].SendMessage? ==> commands[k].roomId != roomId
  {
    if commands != [] {
      NothingSentTo(roomId, commands[1..], stamps[1..]);
      assert forall k :: 1 <= k < |commands| ==> commands[k] == commands[1..][k - 1];
    }
  }

  /** Each `sendMessage` to a room adds exactly one message to it, with the sent text. */
  lemma {:induction false} SentToOne(roomId: string, message: string, stamp: Stamp)
    ensures SentTo(roomId, [SendMessage(roomId, message)], [stamp]) == [Sent(message, stamp)]
    ensures Sent(message, stamp).content == message && Sent(message, stamp).isMine
  {
    assert [SendMessage(roomId, message)][1..] == [];
  }

  // ---------------------------------------------------------------- the chat list

  /** On mount the derived list agrees with the flags of the sample data. */
  lemma InitialChatList()
    ensures MarkSelected(ChatData.SampleChatRooms, Initial.selectedChatRoomId) == ChatData.SampleChatRooms
  {
    ChatData.OnlyFirstRoomSelected();
    var rooms := ChatData.SampleChatRooms;
    assert forall k :: 0 <= k < |rooms| ==> rooms[k].(isSelected := Some(rooms[k].id == "1")) == rooms[k];
  }

  /** In the derived list, exactly the rooms with the selected id are flagged; there is at most one. */
  lemma OneRoomFlagged(id: string, j: nat, k: nat)
    requires j < k < |ChatData.SampleChatRooms|
    ensures var rooms := MarkSelected(ChatData.SampleChatRooms, id);
      !(rooms[j].isSelected == Some(true) && rooms[k].isSelected == Some(true))
  {
    ChatData.OnlyFirstRoomSelected();
  }

  /** The selected room is found in the list exactly when it has a conversation in the sample data. */
  lemma SelectedRoomFound(id: string)
    ensures FindRoom(ChatData.SampleChatRooms, id).Some? <==> id in ChatData.ChatRoomMessages
  {
    ChatData.RoomsHaveConversations();
  }

  // ---------------------------------------------------------------- from the editor to the preview

  /** Running `채팅방<d>.<A>` with `A` among 열기, 보여주기, 선택 and 표시 selects room `d`, opens the pane and sends nothing. */
  lemma RunSelectScript(v: View, digits: string, action: string, stamp: Stamp)
    requires digits != [] && Text.AllDigits(digits) && action in SelectActions
    ensures var run := Editor.HandleRunCode(ChatRoomObject + digits + "." + action);
      && run == Editor.Forwarded([SelectChatRoom(digits)])
      && Apply(v, run.actions, [stamp]) == v.(selectedChatRoomId := digits, isChatRoomOpen := true)
  {
    Editor.SelectScript(digits, action);
  }

  /** Running `채팅방<d>.전송(q1 X q2)` appends one message of mine with text `X` to room `d`'s list. */
  lemma RunSendScript(v: View, digits: string, q1: char, content: string, q2: char, stamp: Stamp)
    requires digits != [] && Text.AllDigits(digits) && IsQuote(q1) && IsQuote(q2)
    requires content != [] && '.' !in content
    requires forall j :: 0 <= j < |content| ==> !IsQuote(content[j]) && !Text.IsLineTerminator(content[j])
    ensures var run := Editor.HandleRunCode(ChatRoomObject + digits + "." + CallText("전송", q1, content, q2));
      && run == Editor.Forwarded([SendMessage(digits, content)])
      && var after := Apply(v, run.actions, [stamp]);
      && after.selectedChatRoomId == v.selectedChatRoomId && after.isChatRoomOpen == v.isChatRoomOpen
      && MessagesOf(after.chatRoomMessages, digits) == MessagesOf(v.chatRoomMessages, digits) + [Sent(content, stamp)]
  {
    Editor.SendScript(digits, q1, content, q2);
    ApplyOneSend(v, digits, content, stamp);
  }

  lemma ApplyOneSend(v: View, roomId: string, message: string, stamp: Stamp)
    ensures var after := Apply(v, [SendMessage(roomId, message)], [stamp]);
      && after.selectedChatRoomId == v.selectedChatRoomId && after.isChatRoomOpen == v.isChatRoomOpen
      && MessagesOf(after.chatRoomMessages, roomId) == MessagesOf(v.chatRoomMessages, roomId) + [Sent(message, stamp)]
  {
    assert [SendMessage(roomId, message)][1..] == [];
  }
}
