/**
 * The chat transcript of frontend/src/components/chatContent/ChatContent.js.
 *
 * The transcript is an append-only list of items; each new item gets the key
 * `chat.length + 1`. Pressing Enter with a non-empty input appends a human
 * item and clears the input. Whenever the last item is human, the component
 * asks the server for an answer and, when it arrives, appends an AI item to
 * the transcript it saw when it asked.
 */
module Chat {
  import opened Outcomes

  datatype Speaker = Human | Ai

  /** `{key, type, msg}`. */
  datatype ChatItem = ChatItem(key: int, kind: Speaker, msg: string)

  /** `[...chat, {key: chat.length + 1, type, msg}]`. */
  function Appended(chat: seq<ChatItem>, kind: Speaker, msg: string): seq<ChatItem>
  {
    chat + [ChatItem(|chat| + 1, kind, msg)]
  }

  /** Every key is the item's 1-based position. */
  predicate KeysArePositions(chat: seq<ChatItem>)
  {
    forall i :: 0 <= i < |chat| ==> chat[i].key == i + 1
  }

  /** Every AI item comes directly after a human item. */
  predicate AiAnswersHuman(chat: seq<ChatItem>)
  {
    forall i :: 0 <= i < |chat| && chat[i].kind == Ai ==> 0 < i && chat[i - 1].kind == Human
  }

  /** The transcript invariant the component keeps. */
  predicate WellFormed(chat: seq<ChatItem>)
  {
    KeysArePositions(chat) && AiAnswersHuman(chat)
  }

  predicate LastIsHuman(chat: seq<ChatItem>)
  {
    |chat| > 0 && chat[|chat| - 1].kind == Human
  }

  /** Appending keeps the earlier items and adds exactly one item, keyed by its position. */
  lemma AppendedExtends(chat: seq<ChatItem>, kind: Speaker, msg: string)
    ensures |Appended(chat, kind, msg)| == |chat| + 1
    ensures Appended(chat, kind, msg)[..|chat|] == chat
    ensures Appended(chat, kind, msg)[|chat|] == ChatItem(|chat| + 1, kind, msg)
  {
  }

  /** A human item may always be appended. */
  lemma HumanAppendKeepsWellFormed(chat: seq<ChatItem>, msg: string)
    requires WellFormed(chat)
    ensures WellFormed(Appended(chat, Human, msg)) && LastIsHuman(Appended(chat, Human, msg))
  {
  }

  /** An AI item may be appended when the last item is human. */
  lemma AiAppendKeepsWellFormed(chat: seq<ChatItem>, msg: string)
    requires WellFormed(chat) && LastIsHuman(chat)
    ensures WellFormed(Appended(chat, Ai, msg)) && !LastIsHuman(Appended(chat, Ai, msg))
  {
  }

  /** In a well-formed transcript no two items share a key. */
  lemma KeysAreUnique(chat: seq<ChatItem>)
    requires WellFormed(chat)
    ensures forall i, j :: 0 <= i < j < |chat| ==> chat[i].key != chat[j].key
  {
  }

  /** In a well-formed transcript two AI items are never adjacent, and the first item is never an AI item. */
  lemma NoAdjacentAi(chat: seq<ChatItem>)
    requires WellFormed(chat)
    ensures forall i :: 0 < i < |chat| ==> !(chat[i - 1].kind == Ai && chat[i].kind == Ai)
    ensures |chat| > 0 ==> chat[0].kind == Human
  {
    forall i | 0 < i < |chat|
      ensures !(chat[i - 1].kind == Ai && chat[i].kind == Ai)
    {
      if chat[i].kind == Ai {
        assert chat[i - 1].kind == Human;
      }
    }
  }

  function Count(chat: seq<ChatItem>, kind: Speaker): nat
  {
    if chat == [] then 0
    else Count(chat[..|chat| - 1], kind) + if chat[|chat| - 1].kind == kind then 1 else 0
  }

  /** Every AI answer has its own human question: there are never more AI items than human ones. */
  lemma {:induction false} AiNeverOutnumbersHuman(chat: seq<ChatItem>)
    requires AiAnswersHuman(chat)
    ensures Count(chat, Ai) <= Count(chat, Human)
    ensures LastIsHuman(chat) ==> Count(chat, Ai) < Count(chat, Human)
    decreases |chat|
  {
    if chat != [] {
      var front := chat[..|chat| - 1];
      assert AiAnswersHuman(front) by {
        forall i | 0 <= i < |front| && front[i].kind == Ai
          ensures 0 < i && front[i - 1].kind == Human
        {
          assert chat[i] == front[i];
        }
      }
      AiNeverOutnumbersHuman(front);
      if chat[|chat| - 1].kind == Ai {
        assert LastIsHuman(front);
      }
    }
  }

  /** Appending adds one item of its speaker to that speaker's count and leaves the other count alone. */
  lemma CountAppended(chat: seq<ChatItem>, kind: Speaker, msg: string, counted: Speaker)
    ensures Count(Appended(chat, kind, msg), counted) == Count(chat, counted) + if kind == counted then 1 else 0
  {
    assert Appended(chat, kind, msg)[..|chat|] == chat;
  }

  /**
   * Two questions in flight, answered in the order asked. Each answer sets the
   * transcript to the snapshot its request captured plus the answer, so the
   * second answer wipes out the first: the transcript ends with both
   * questions and only the second answer, and since its last item is an AI
   * item no new request asks the first question again.
   */
  lemma {:induction false} AnswersInOrderLoseFirstAnswer(chat: seq<ChatItem>, q1: string, q2: string, a1: string, a2: string)
    requires WellFormed(chat)
    ensures var first := Appended(chat, Human, q1);
            var second := Appended(first, Human, q2);
            var final := Appended(second, Ai, a2);
            final[..|chat|] == chat
            && final[|chat|..] == [ChatItem(|chat| + 1, Human, q1), ChatItem(|chat| + 2, Human, q2), ChatItem(|chat| + 3, Ai, a2)]
            && Count(final, Human) == Count(chat, Human) + 2
            && Count(final, Ai) == Count(chat, Ai) + 1
            && WellFormed(final) && !LastIsHuman(final)
  {
    var first := Appended(chat, Human, q1);
    var second := Appended(first, Human, q2);
    HumanAppendKeepsWellFormed(chat, q1);
    HumanAppendKeepsWellFormed(first, q2);
    AiAppendKeepsWellFormed(second, a2);
    CountAppended(chat, Human, q1, Human);
    CountAppended(chat, Human, q1, Ai);
    CountAppended(first, Human, q2, Human);
    CountAppended(first, Human, q2, Ai);
    CountAppended(second, Ai, a2, Human);
    CountAppended(second, Ai, a2, Ai);
  }

  /**
   * Two questions in flight, the second answered first. The late first answer
   * sets the transcript to the first snapshot plus its answer: the second
   * question and its answer are gone for good, and since the last item is an
   * AI item no new request asks the second question again.
   */
  lemma {:induction false} AnswersOutOfOrderLoseSecondQuestion(chat: seq<ChatItem>, q1: string, q2: string, a1: string, a2: string)
    requires WellFormed(chat)
    ensures var first := Appended(chat, Human, q1);
            var second := Appended(first, Human, q2);
            var early := Appended(second, Ai, a2);
            var final := Appended(first, Ai, a1);
            early[..|final| - 1] == final[..|final| - 1]
            && final[..|chat|] == chat
            && final[|chat|..] == [ChatItem(|chat| + 1, Human, q1), ChatItem(|chat| + 2, Ai, a1)]
            && Count(final, Human) == Count(chat, Human) + 1
            && WellFormed(final) && !LastIsHuman(final)
  {
    var first := Appended(chat, Human, q1);
    var second := Appended(first, Human, q2);
    HumanAppendKeepsWellFormed(chat, q1);
    AiAppendKeepsWellFormed(first, a1);
    CountAppended(chat, Human, q1, Human);
    CountAppended(first, Ai, a1, Human);
    assert Appended(second, Ai, a2)[..|first|] == first;
  }

  /** An answer request: the transcript the effect saw and the question it sends. */
  datatype Pending = Pending(snapshot: seq<ChatItem>, query: string)

  /** The component's state: the transcript and the text in the input box. */
  class ChatContent {
    var chat: seq<ChatItem>
    var msg: string

    ghost predicate Valid()
      reads this
    {
      WellFormed(chat)
    }

    constructor ()
      ensures Valid() && chat == [] && msg == ""
    {
      chat, msg := [], "";
    }

    /** `onStateChange`: typing replaces the input text. */
    method OnStateChange(value: string)
      modifies this`msg
      ensures msg == value
    {
      msg := value;
    }

    /** `addHumanMessage`: appends one human item and clears the input. */
    method AddHumanMessage(message: string)
      requires Valid()
      modifies this
      ensures Valid()
      ensures chat == Appended(old(chat), Human, message) && msg == ""
    {
      HumanAppendKeepsWellFormed(chat, message);
      chat := chat + [ChatItem(|chat| + 1, Human, message)];
      msg := "";
    }

    /** The keydown listener: Enter with a non-empty input sends it; anything else changes nothing. */
    method OnKeyDown(key: string)
      requires Valid()
      modifies this
      ensures Valid()
      ensures if key == "Enter" && old(msg) != ""
              then chat == Appended(old(chat), Human, old(msg)) && msg == ""
              else chat == old(chat) && msg == old(msg)
    {
      if key == "Enter" && msg != "" {
        AddHumanMessage(msg);
      }
    }

    /** The effect that runs when the transcript changes: it asks for an answer only when the last item is human. */
    method OnChatChanged() returns (request: Option<Pending>)
      ensures request.Some? <==> LastIsHuman(chat)
      ensures request.Some? ==> request.value == Pending(chat, chat[|chat| - 1].msg)
    {
      if |chat| > 0 && chat[|chat| - 1].kind == Human {
        request := Some(Pending(chat, chat[|chat| - 1].msg));
      } else {
        request := None;
      }
    }

    /**
     * The answer to `request` arrives (`Some`) or the fetch fails (`None`). An
     * answer replaces the transcript by the transcript the request saw plus
     * an AI item; a failure leaves the transcript alone.
     */
    method OnAnswer(request: Pending, reply: Option<string>)
      requires Valid() && WellFormed(request.snapshot) && LastIsHuman(request.snapshot)
      modifies this`chat
      ensures Valid()
      ensures reply.None? ==> chat == old(chat)
      ensures reply.Some? ==> chat == Appended(request.snapshot, Ai, reply.value)
    {
      if reply.Some? {
        AiAppendKeepsWellFormed(request.snapshot, reply.value);
        chat := request.snapshot + [ChatItem(|request.snapshot| + 1, Ai, reply.value)];
      }
    }
  }
}
