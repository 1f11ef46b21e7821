/** ChatHistoryService: a map from session id to the list of messages added
    to that session. The message type is left abstract. */
module ChatHistory {

  class ChatHistoryService<Message> {
    var sessions: map<string, seq<Message>>

    constructor ()
      ensures sessions == map[]
    {
      sessions := map[];
    }

    /** addMessage: computeIfAbsent(...).add(message). */
    method AddMessage(sessionId: string, message: Message)
      modifies this
      ensures sessions == Add(old(sessions), sessionId, message)
    {
      var current := if sessionId in sessions then sessions[sessionId] else [];
      sessions := sessions[sessionId := current + [message]];
    }

    /** getHistory: a copy of the session's messages, empty when unknown. */
    method GetHistory(sessionId: string) returns (r: seq<Message>)
      ensures r == HistoryOf(sessions, sessionId)
      ensures sessionId !in AllSessions() ==> r == []
    {
      r := if sessionId in sessions then sessions[sessionId] else [];
    }

    /** clearHistory. */
    method ClearHistory(sessionId: string)
      modifies this
      ensures sessions == old(sessions) - {sessionId}
    {
      sessions := sessions - {sessionId};
    }

    /** getAllSessions: the session ids with a history. */
    function AllSessions(): (r: set<string>)
      reads this
      ensures forall s :: s in r <==> s in sessions
    {
      sessions.Keys
    }
  }

  /** The sessions after adding message to sessionId. */
  function Add<M>(sessions: map<string, seq<M>>, sessionId: string, message: M): map<string, seq<M>> {
    sessions[sessionId := HistoryOf(sessions, sessionId) + [message]]
  }

  /** A session's history, empty when the session is unknown. */
  function HistoryOf<M>(sessions: map<string, seq<M>>, sessionId: string): seq<M> {
    if sessionId in sessions then sessions[sessionId] else []
  }

  /** Adding appends the message to that session's history, growing it by one,
      and leaves every other session as it was. */
  lemma AddAppends<M>(sessions: map<string, seq<M>>, s: string, m: M, other: string)
    requires other != s
    ensures var after := Add(sessions, s, m);
      HistoryOf(after, s) == HistoryOf(sessions, s) + [m]
      && |HistoryOf(after, s)| == |HistoryOf(sessions, s)| + 1
      && HistoryOf(after, other) == HistoryOf(sessions, other)
      && after.Keys == sessions.Keys + {s}
  {
  }

  /** After a clear the history is empty and the session is no longer listed. */
  lemma ClearEmpties<M>(sessions: map<string, seq<M>>, s: string, other: string)
    requires other != s
    ensures HistoryOf(sessions - {s}, s) == []
    ensures s !in (sessions - {s}).Keys
    ensures HistoryOf(sessions - {s}, other) == HistoryOf(sessions, other)
  {
  }

  /** Adding messages in order builds the history in that order. */
  lemma {:induction false} AddAllInOrder<M>(sessions: map<string, seq<M>>, s: string, ms: seq<M>)
    ensures HistoryOf(AddAll(sessions, s, ms), s) == HistoryOf(sessions, s) + ms
    decreases |ms|
  {
    if ms == [] {
      assert HistoryOf(sessions, s) + [] == HistoryOf(sessions, s);
    } else {
      var front := ms[..|ms| - 1];
      AddAllInOrder(sessions, s, front);
      assert ms == front + [ms[|ms| - 1]];
    }
  }

  function AddAll<M>(sessions: map<string, seq<M>>, s: string, ms: seq<M>): map<string, seq<M>>
    decreases |ms|
  {
    if ms == [] then sessions else Add(AddAll(sessions, s, ms[..|ms| - 1]), s, ms[|ms| - 1])
  }
}
