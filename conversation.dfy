/** ConversationController's per-session message histories: continue a
    conversation, read and clear it, and cut it down to a maximum length while
    keeping every system message. */
module Conversation {
  import opened Wrappers
  import McpServer

  datatype Role = System | User | Assistant

  datatype Message = Message(role: Role, text: string)

  /** The system message a new session starts with. */
  const Greeting: string := "당신은 친절한 어시스턴트입니다."

  /** The reply recorded when the model returns no text. */
  const NoReply: string := "응답 없음"

  const SessionNotFound: string := "Session not found"

  /** filterIsInstance<SystemMessage>(). */
  function Systems(ms: seq<Message>): (r: seq<Message>)
    ensures forall i :: 0 <= i < |r| ==> r[i].role == System
    ensures |r| <= |ms|
  {
    if ms == [] then []
    else (if ms[0].role == System then [ms[0]] else []) + Systems(ms[1..])
  }

  /** filter { it !is SystemMessage }. */
  function Others(ms: seq<Message>): (r: seq<Message>)
    ensures forall i :: 0 <= i < |r| ==> r[i].role != System
    ensures |r| <= |ms|
  {
    if ms == [] then []
    else (if ms[0].role != System then [ms[0]] else []) + Others(ms[1..])
  }

  /** takeLast(n): the last n elements, or all of them when there are fewer. */
  function TakeLast<T>(s: seq<T>, n: nat): (r: seq<T>)
    ensures |r| == if n < |s| then n else |s|
    ensures r == s[|s| - |r|..]
  {
    if n < |s| then s[|s| - n..] else s
  }

  /** maxOf(1, maxMessages - systemMessages.size). */
  function Budget(systems: nat, maxMessages: int): (r: nat)
    ensures r >= 1 && r >= maxMessages - systems
  {
    if maxMessages - systems > 1 then maxMessages - systems else 1
  }

  /** The budget as the source computes it: the subtraction is Int arithmetic
      and wraps for a bound near Int.MIN_VALUE. */
  function BudgetAsWritten(systems: nat, maxMessages: int): (r: nat)
    ensures r >= 1
    ensures -0x8000_0000 <= maxMessages - systems < 0x8000_0000 ==> r == Budget(systems, maxMessages)
  {
    var d := McpServer.Wrap(maxMessages - systems) as int;
    if d > 1 then d else 1
  }

  /** With maxMessages = Int.MIN_VALUE and one system message the wrapped
      budget is Int.MAX_VALUE, so every message is kept, where the intended
      budget is a single message. */
  lemma BudgetAsWrittenWraps()
    ensures BudgetAsWritten(1, -0x8000_0000) == 0x7FFF_FFFF
    ensures Budget(1, -0x8000_0000) == 1
  {
  }

  /** Every system message, then the last keep other messages. */
  function KeepRecent(ms: seq<Message>, keep: nat): seq<Message> {
    Systems(ms) + TakeLast(Others(ms), keep)
  }

  /** The history limitConversationHistory writes back, with the budget
      computed in Int arithmetic as written. */
  function Limited(ms: seq<Message>, maxMessages: int): seq<Message> {
    KeepRecent(ms, BudgetAsWritten(|Systems(ms)|, maxMessages))
  }

  /** The history the limit evidently intends: the budget without wrap-around. */
  function LimitedIntended(ms: seq<Message>, maxMessages: int): seq<Message> {
    KeepRecent(ms, Budget(|Systems(ms)|, maxMessages))
  }

  /** The intended rule: a bound at or below the number of system messages
      plus one keeps exactly one other message (when there is one). */
  lemma LimitedSmallBoundKeepsOne(ms: seq<Message>, maxMessages: int)
    requires maxMessages <= |Systems(ms)| + 1
    ensures |Others(LimitedIntended(ms, maxMessages))| == if Others(ms) == [] then 0 else 1
  {
    KeepRecentParts(ms, Budget(|Systems(ms)|, maxMessages));
  }

  /** As long as the subtraction stays inside the Int range, the history
      written back is the intended one. */
  lemma LimitedWithoutOverflow(ms: seq<Message>, maxMessages: int)
    requires -0x8000_0000 <= maxMessages - |Systems(ms)| < 0x8000_0000
    ensures Limited(ms, maxMessages) == LimitedIntended(ms, maxMessages)
  {
  }

  /** As written, the smallest Int bound with one system message keeps every
      other message, where the intended limit keeps at most one. */
  lemma LimitedAsWrittenKeepsAll(ms: seq<Message>)
    requires |Systems(ms)| == 1 && |Others(ms)| <= 0x7FFF_FFFF
    ensures Limited(ms, -0x8000_0000) == Systems(ms) + Others(ms)
    ensures |Others(LimitedIntended(ms, -0x8000_0000))| <= 1
  {
    BudgetAsWrittenWraps();
    KeepRecentParts(ms, Budget(1, -0x8000_0000));
  }

  lemma {:induction false} SystemsConcat(a: seq<Message>, b: seq<Message>)
    ensures Systems(a + b) == Systems(a) + Systems(b)
    ensures Others(a + b) == Others(a) + Others(b)
  {
    if a != [] {
      assert (a + b)[1..] == a[1..] + b;
      SystemsConcat(a[1..], b);
    } else {
      assert a + b == b;
    }
  }

  lemma {:induction false} SplitOfSystems(ms: seq<Message>)
    requires forall i :: 0 <= i < |ms| ==> ms[i].role == System
    ensures Systems(ms) == ms && Others(ms) == []
  {
    if ms != [] {
      SplitOfSystems(ms[1..]);
    }
  }

  lemma {:induction false} SplitOfOthers(ms: seq<Message>)
    requires forall i :: 0 <= i < |ms| ==> ms[i].role != System
    ensures Systems(ms) == [] && Others(ms) == ms
  {
    if ms != [] {
      SplitOfOthers(ms[1..]);
    }
  }

  /** The limited history keeps every system message, first and in order,
      followed by the last maxOf(1, maxMessages - #system) other messages in
      their original order, the subtraction wrapping at 32 bits; its length
      is the newCount reported. */
  lemma LimitedParts(ms: seq<Message>, maxMessages: int)
    ensures var r := Limited(ms, maxMessages);
      var keep := BudgetAsWritten(|Systems(ms)|, maxMessages);
      Systems(r) == Systems(ms) && Others(r) == TakeLast(Others(ms), keep)
      && r[..|Systems(ms)|] == Systems(ms)
      && |r| == |Systems(ms)| + (if keep < |Others(ms)| then keep else |Others(ms)|)
  {
    KeepRecentParts(ms, BudgetAsWritten(|Systems(ms)|, maxMessages));
  }

  lemma KeepRecentParts(ms: seq<Message>, keep: nat)
    ensures var r := KeepRecent(ms, keep);
      Systems(r) == Systems(ms) && Others(r) == TakeLast(Others(ms), keep)
      && r[..|Systems(ms)|] == Systems(ms)
      && |r| == |Systems(ms)| + (if keep < |Others(ms)| then keep else |Others(ms)|)
  {
    var sys := Systems(ms);
    var kept := TakeLast(Others(ms), keep);
    SystemsConcat(sys, kept);
    SplitOfSystems(sys);
    SplitOfOthers(kept);
    assert (sys + kept)[..|sys|] == sys;
  }

  /** Limiting twice with the same bound changes nothing more. */
  lemma LimitedIdempotent(ms: seq<Message>, maxMessages: int)
    ensures Limited(Limited(ms, maxMessages), maxMessages) == Limited(ms, maxMessages)
  {
    LimitedParts(ms, maxMessages);
  }

  /** The history never gets longer, and a history already within the bound
      keeps everything. */
  lemma LimitedWithinBound(ms: seq<Message>, maxMessages: int)
    ensures |Limited(ms, maxMessages)| <= |ms|
    ensures |Others(ms)| <= BudgetAsWritten(|Systems(ms)|, maxMessages) ==>
      |Limited(ms, maxMessages)| == |Systems(ms)| + |Others(ms)| == |ms|
  {
    LimitedParts(ms, maxMessages);
    PartitionSize(ms);
  }

  lemma {:induction false} PartitionSize(ms: seq<Message>)
    ensures |Systems(ms)| + |Others(ms)| == |ms|
  {
    if ms != [] {
      PartitionSize(ms[1..]);
    }
  }

  /** The limit's report: the size before and after. */
  datatype LimitReport = LimitReport(sessionId: string, originalCount: nat, newCount: nat)

  /** getConversationHistory without the message rendering. */
  datatype HistoryReport = HistoryReport(sessionId: string, messageCount: nat, messages: seq<Message>)

  class ConversationController {
    var conversations: map<string, seq<Message>>

    constructor ()
      ensures conversations == map[]
    {
      conversations := map[];
    }

    /** The session's history, empty for an unknown session. */
    function History(sessionId: string): (r: seq<Message>)
      reads this
      ensures sessionId !in conversations ==> r == []
      ensures sessionId in conversations ==> r == conversations[sessionId]
    {
      if sessionId in conversations then conversations[sessionId] else []
    }

    /** continueConversation: reply is what the model answered, if anything. */
    method ContinueConversation(sessionId: string, message: string, reply: Option<string>)
      returns (answer: string)
      modifies this
      ensures answer == reply.GetOr(NoReply)
      ensures sessionId in conversations
      ensures var before := if sessionId in old(conversations) then old(conversations)[sessionId]
                            else [Message(System, Greeting)];
        conversations == old(conversations)[sessionId := before + [Message(User, message), Message(Assistant, answer)]]
    {
      var before := if sessionId in conversations then conversations[sessionId] else [Message(System, Greeting)];
      var messages := before + [Message(User, message)];
      answer := reply.GetOr(NoReply);
      messages := messages + [Message(Assistant, answer)];
      assert messages == before + [Message(User, message), Message(Assistant, answer)];
      conversations := conversations[sessionId := messages];
    }

    method GetConversationHistory(sessionId: string) returns (r: HistoryReport)
      ensures r.sessionId == sessionId && r.messages == History(sessionId)
      ensures r.messageCount == |r.messages|
      ensures sessionId !in conversations ==> r.messageCount == 0
    {
      var messages := if sessionId in conversations then conversations[sessionId] else [];
      r := HistoryReport(sessionId, |messages|, messages);
    }

    /** clearConversation: removes that session only. */
    method ClearConversation(sessionId: string)
      modifies this
      ensures conversations == old(conversations) - {sessionId}
    {
      conversations := conversations - {sessionId};
    }

    /** limitConversationHistory: an unknown session is an error and changes nothing. */
    method LimitConversationHistory(sessionId: string, maxMessages: int) returns (r: Result<LimitReport>)
      modifies this
      ensures sessionId !in old(conversations) ==>
        r == Err(SessionNotFound) && conversations == old(conversations)
      ensures sessionId in old(conversations) ==>
        var ms := old(conversations)[sessionId];
        r == Ok(LimitReport(sessionId, |ms|, |Limited(ms, maxMessages)|))
        && conversations == old(conversations)[sessionId := Limited(ms, maxMessages)]
    {
      if sessionId !in conversations {
        return Err(SessionNotFound);
      }
      var messages := conversations[sessionId];
      var systemMessages := Systems(messages);
      var otherMessages := Others(messages);
      var difference := McpServer.Wrap(maxMessages - |systemMessages|) as int;
      var maxOther := if difference > 1 then difference else 1;
      var recent := TakeLast(otherMessages, maxOther);
      conversations := conversations[sessionId := systemMessages + recent];
      r := Ok(LimitReport(sessionId, |messages|, |systemMessages| + |recent|));
    }
  }
}
