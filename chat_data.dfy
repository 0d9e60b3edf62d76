/**
 * The fixed data of constants/chatData.ts: its own copy of the 12-hour
 * timestamp formatter, the three sample conversations and the chat list that
 * refers to them by room id.
 */
module ChatData {
  import opened Wrappers
  import opened Text
  import Chat

  type MessageData = Chat.MessageData
  type ChatRoomData = Chat.ChatRoomData

  /** The duplicate `formatTimestamp` of this file; it agrees with the one in lib/chatUtils.ts everywhere. */
  function FormatTimestamp(hours: nat, minutes: nat): (r: string)
    ensures r == Chat.FormatTimestamp(hours, minutes)
  {
    var period := if hours < 12 then "오전" else "오후";
    var displayHours := if hours % 12 == 0 then 12 else hours % 12;
    period + " " + Decimal(displayHours) + ":" + PadStart2(Decimal(minutes))
  }

  /** The message of the first sample conversation that 07:28 formats as "오전 7:28". */
  lemma MorningExample()
    ensures FormatTimestamp(7, 28) == "오전 7:28"
  {
    assert Decimal(7) == "7";
    assert Decimal(28) == "28";
  }

  const FriendFirst: string := "기헌"
  const FriendSecond: string := "현우"
  const FriendThird: string := "우리 가족"

  /** A message dated `y-mo-d hh:mm:00`, local time. */
  function At(y: int, mo: nat, d: nat, hh: nat, mm: nat): Chat.DateTime {
    Chat.DateTime(y, mo, d, hh, mm, 0)
  }

  /** A message whose sender fields are all absent. */
  function Mine(id: string, content: string, timestamp: string, date: Chat.DateTime): MessageData {
    Chat.MessageData(id, content, timestamp, Some(date), true, None, None, None, None)
  }

  function Theirs(id: string, content: string, timestamp: string, date: Chat.DateTime,
                  senderName: Option<string>, avatar: string, color: string): MessageData {
    Chat.MessageData(id, content, timestamp, Some(date), false, senderName, Some(avatar), Some(color), None)
  }

  const MessagesJimin: seq<MessageData> := [
    Theirs("1", "야 너 어제 수학쌤이 내준 숙제 했어??", FormatTimestamp(7, 28), At(2025, 11, 24, 7, 28),
           Some(FriendFirst), [FriendFirst[0]], "bg-yellow-400"),
    Mine("2", "ㅇㅇ 방금 다 했는데 너무 어려웠음 ㅠㅠ", FormatTimestamp(7, 29), At(2025, 11, 24, 7, 29)),
    Theirs("3", "헐 나 아직 안했는데 ㅋㅋㅋ", FormatTimestamp(7, 29), At(2025, 11, 24, 7, 29),
           None, [FriendFirst[0]], "bg-yellow-400"),
    Theirs("4", "5번 문제 진짜 모르겠어 ㅜㅜ 이따 같이 풀어보자", FormatTimestamp(7, 30), At(2025, 11, 24, 7, 30),
           None, [FriendFirst[0]], "bg-yellow-400"),
    Mine("5", "ㅇㅋㅇㅋ 오늘 아침 일찍 와라", FormatTimestamp(7, 31), At(2025, 11, 24, 7, 31))
  ]

  const MessagesHyunwoo: seq<MessageData> := [
    Theirs("1", "야 롤 할래?", "오후 8:30", At(2025, 11, 20, 20, 30),
           Some(FriendSecond), [FriendSecond[0]], "bg-green-400"),
    Mine("2", "오 ㄱㄱ", "오후 8:31", At(2025, 11, 20, 20, 31)),
    Mine("3", "근데 숙제 다 했어?", "오후 8:31", At(2025, 11, 20, 20, 31)),
    Theirs("4", "ㅇㅇ 다 했음 ㅋㅋ", "오후 8:32", At(2025, 11, 20, 20, 32),
           None, [FriendSecond[0]], "bg-green-400"),
    Mine("5", "그럼 한 판만 ㄱㄱ", "오후 8:33", At(2025, 11, 20, 20, 33))
  ]

  const MessagesFamily: seq<MessageData> := [
    Theirs("1", "길동아 오늘 저녁 몇 시에 집에 와?", "오후 5:00", At(2025, 11, 22, 17, 0),
           Some("엄마"), "엄", "bg-yellow-400"),
    Mine("2", "7시쯤 갈게요~", "오후 5:05", At(2025, 11, 22, 17, 5)),
    Theirs("3", "오케이! 저녁 뭐 먹고 싶어?", "오후 5:06", At(2025, 11, 22, 17, 6),
           Some("엄마"), "엄", "bg-yellow-400"),
    Mine("4", "치킨!!! 🍗", "오후 5:07", At(2025, 11, 22, 17, 7)),
    Theirs("5", "나도 치킨 찬성 ㅋㅋㅋ", "오후 5:08", At(2025, 11, 22, 17, 8),
           Some("누나"), "누", "bg-purple-400"),
    Theirs("6", "그럼 치킨 시킬게~", "오후 5:10", At(2025, 11, 22, 17, 10),
           Some("엄마"), "엄", "bg-yellow-400"),
    Mine("7", "우리 가족 최고 👍", "오후 5:11", At(2025, 11, 22, 17, 11))
  ]

  /** `sampleChatRooms`: the chat list, room "1" marked as selected. */
  const SampleChatRooms: seq<ChatRoomData> := [
    Chat.ChatRoomData("1", "기헌", "기", "bg-yellow-400", "ㅇㅋㅇㅋ 내일 아침 일찍 와!", "오후 5:31", 1, Some(true)),
    Chat.ChatRoomData("2", "현우", "현", "bg-green-400", "그럼 한 판만 하자!", "오후 8:33", 0, Some(false)),
    Chat.ChatRoomData("3", "우리 가족 💕", "🏠", "bg-purple-400", "우리 가족 최고 👍", "오후 5:11", 2, Some(false))
  ]

  /** `chatRoomMessages`: each room id's conversation. */
  const ChatRoomMessages: map<string, seq<MessageData>> := map[
    "1" := MessagesJimin,
    "2" := MessagesHyunwoo,
    "3" := MessagesFamily
  ]

  /** Every room of the chat list has a conversation, and there is no conversation without a room. */
  lemma RoomsHaveConversations()
    ensures forall r :: r in SampleChatRooms ==> r.id in ChatRoomMessages
    ensures forall id :: id in ChatRoomMessages ==> exists r :: r in SampleChatRooms && r.id == id
  {
    ConversationKeys();
    RoomIds();
    var rooms := SampleChatRooms;
    forall r | r in rooms ensures r.id in ChatRoomMessages {
      var k :| 0 <= k < |rooms| && rooms[k] == r;
    }
    forall id | id in ChatRoomMessages ensures exists r :: r in rooms && r.id == id {
      if id == "1" { assert rooms[0].id == id; }
      else if id == "2" { assert rooms[1].id == id; }
      else { assert rooms[2].id == id; }
    }
  }

  /** The conversations are those of rooms "1", "2" and "3". */
  lemma ConversationKeys()
    ensures ChatRoomMessages.Keys == {"1", "2", "3"}
  {
  }

  /** The chat list has rooms "1", "2" and "3", in that order. */
  lemma RoomIds()
    ensures |SampleChatRooms| == 3
    ensures SampleChatRooms[0].id == "1" && SampleChatRooms[1].id == "2" && SampleChatRooms[2].id == "3"
  {
  }

  /** Only room "1" starts out selected, and the room ids are distinct. */
  lemma OnlyFirstRoomSelected()
    ensures forall k :: 0 <= k < |SampleChatRooms| ==> SampleChatRooms[k].isSelected == Some(SampleChatRooms[k].id == "1")
    ensures forall j, k :: 0 <= j < k < |SampleChatRooms| ==> SampleChatRooms[j].id != SampleChatRooms[k].id
  {
  }

  /** No two messages of the list share an id. */
  predicate IdsDistinct(messages: seq<MessageData>) {
    forall j, k :: 0 <= j < k < |messages| ==> messages[j].id != messages[k].id
  }

  /** Each sample conversation numbers its messages "1", "2", ... */
  lemma JiminIdsDistinct()
    ensures IdsDistinct(MessagesJimin)
  {
    var m := MessagesJimin;
    assert |m| == 5;
    assert m[0].id == "1" && m[1].id == "2" && m[2].id == "3" && m[3].id == "4" && m[4].id == "5";
  }

  lemma HyunwooIdsDistinct()
    ensures IdsDistinct(MessagesHyunwoo)
  {
    var m := MessagesHyunwoo;
    assert |m| == 5;
    assert m[0].id == "1" && m[1].id == "2" && m[2].id == "3" && m[3].id == "4" && m[4].id == "5";
  }

  lemma FamilyIdsDistinct()
    ensures IdsDistinct(MessagesFamily)
  {
    var m := MessagesFamily;
    assert |m| == 7;
    assert m[0].id == "1" && m[1].id == "2" && m[2].id == "3" && m[3].id == "4" && m[4].id == "5" && m[5].id == "6" && m[6].id == "7";
  }

  /** Within each conversation, message ids are distinct. */
  lemma MessageIdsDistinct()
    ensures forall id :: id in ChatRoomMessages ==> IdsDistinct(ChatRoomMessages[id])
  {
    JiminIdsDistinct();
    HyunwooIdsDistinct();
    FamilyIdsDistinct();
    ConversationKeys();
    forall id | id in ChatRoomMessages ensures IdsDistinct(ChatRoomMessages[id]) {
      if id == "1" { assert ChatRoomMessages[id] == MessagesJimin; }
      else if id == "2" { assert ChatRoomMessages[id] == MessagesHyunwoo; }
      else { assert ChatRoomMessages[id] == MessagesFamily; }
    }
  }
}
