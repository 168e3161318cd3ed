/**
 * Chat messages and the two ways the core reshapes a conversation: the relay routes split
 * it into a system instruction and a turn history, and the pages extend it with a new
 * user turn, adding a persona message first when none is present.
 */
module Conversation {
  import opened Wrappers
  import opened Js

  const System: string := "system"
  const User: string := "user"
  const ModelRole: string := "model"
  const Assistant: string := "assistant"

  /** `{ role, content }`; the role is free text, as in the request bodies. */
  datatype Message = Message(role: string, content: string)

  /** Roles that the completion provider takes as conversation turns. */
  predicate IsTurn(m: Message) {
    m.role == User || m.role == ModelRole
  }

  /** `messages.find(m => m.role === 'system')?.content` */
  function SystemInstruction(ms: seq<Message>): (r: Option<string>)
    ensures r.None? <==> forall i :: 0 <= i < |ms| ==> ms[i].role != System
    ensures r.Some? ==> exists i :: 0 <= i < |ms| && ms[i].role == System && ms[i].content == r.value &&
                                    forall j :: 0 <= j < i ==> ms[j].role != System
  {
    if ms == [] then None
    else if ms[0].role == System then Some(ms[0].content)
    else
      var r := SystemInstruction(ms[1..]);
      assert forall i :: 1 <= i < |ms| ==> ms[i] == ms[1..][i - 1];
      r
  }

  /** `messages.filter(m => m.role === 'user' || m.role === 'model')` */
  function History(ms: seq<Message>): (h: seq<Message>)
    ensures |h| <= |ms|
    ensures forall m :: m in h <==> m in ms && IsTurn(m)
  {
    if ms == [] then []
    else
      var rest := History(ms[1..]);
      assert forall m :: m in ms <==> m == ms[0] || m in ms[1..];
      if IsTurn(ms[0]) then [ms[0]] + rest else rest
  }

  /** The filter commutes with concatenation, so relative order is kept. */
  lemma {:induction false} HistoryAppend(a: seq<Message>, b: seq<Message>)
    ensures History(a + b) == History(a) + History(b)
  {
    if a == [] {
      assert a + b == b;
    } else {
      assert (a + b)[0] == a[0];
      assert (a + b)[1..] == a[1..] + b;
      HistoryAppend(a[1..], b);
    }
  }

  /** A single message is kept exactly when it is a turn. */
  lemma HistorySingle(m: Message)
    ensures History([m]) == if IsTurn(m) then [m] else []
  {
    assert [m][1..] == [];
  }

  function SystemCount(ms: seq<Message>): nat {
    if ms == [] then 0 else (if ms[0].role == System then 1 else 0) + SystemCount(ms[1..])
  }

  lemma {:induction false} SystemCountAppend(a: seq<Message>, b: seq<Message>)
    ensures SystemCount(a + b) == SystemCount(a) + SystemCount(b)
  {
    if a == [] {
      assert a + b == b;
    } else {
      assert (a + b)[0] == a[0];
      assert (a + b)[1..] == a[1..] + b;
      SystemCountAppend(a[1..], b);
    }
  }

  lemma {:induction false} SystemCountZero(ms: seq<Message>)
    ensures SystemCount(ms) == 0 <==> !HasSystem(ms)
  {
    if ms != [] {
      SystemCountZero(ms[1..]);
      assert forall i :: 1 <= i < |ms| ==> ms[i] == ms[1..][i - 1];
      if !HasSystem(ms[1..]) && ms[0].role != System {
        forall i | 0 <= i < |ms| ensures ms[i].role != System {
          if i > 0 { assert ms[i] == ms[1..][i - 1]; }
        }
      }
    }
  }

  /** `messages.some(m => m.role === "system")` */
  predicate HasSystem(ms: seq<Message>) {
    exists i :: 0 <= i < |ms| && ms[i].role == System
  }

  /**
   * `hasSystem ? [...messages, userMsg] : [sysMsg, ...messages, userMsg]`: the conversation
   * a page sends for a new user turn, with its persona message added only when none is present.
   */
  function WithUserTurn(persona: Message, ms: seq<Message>, text: string): (r: seq<Message>)
    requires persona.role == System
    ensures |r| >= 1 && r[|r| - 1] == Message(User, text)
    ensures HasSystem(ms) ==> r[..|r| - 1] == ms
    ensures !HasSystem(ms) ==> r[0] == persona && r[1..|r| - 1] == ms
  {
    if HasSystem(ms) then ms + [Message(User, text)] else [persona] + ms + [Message(User, text)]
  }

  /**
   * What a screen posts for the text `text` with persona `persona`: nothing when the text is
   * blank, otherwise the conversation with the new user turn.
   */
  function NewHistory(persona: Message, messages: seq<Message>, text: string): (r: Option<seq<Message>>)
    requires persona.role == System
    ensures r.None? <==> IsBlank(text)
    ensures r.Some? ==> |r.value| >= 1 && r.value[|r.value| - 1] == Message(User, text)
    ensures r.Some? && HasSystem(messages) ==> r.value == messages + [Message(User, text)]
    ensures r.Some? && !HasSystem(messages) ==> r.value == [persona] + messages + [Message(User, text)]
  {
    if IsBlank(text) then None else Some(WithUserTurn(persona, messages, text))
  }

  /** The history the relay derives from such a conversation ends with the new user turn. */
  lemma LastTurnSent(persona: Message, ms: seq<Message>, text: string)
    requires persona.role == System
    ensures var h := History(WithUserTurn(persona, ms, text));
            |h| >= 1 && h[|h| - 1] == Message(User, text)
  {
    var r := WithUserTurn(persona, ms, text);
    assert r == r[..|r| - 1] + [Message(User, text)];
    HistoryAppend(r[..|r| - 1], [Message(User, text)]);
    HistorySingle(Message(User, text));
  }

  /** Adding a turn never adds a second system message: there is exactly one when there was at most one. */
  lemma SystemNotDuplicated(persona: Message, ms: seq<Message>, text: string)
    requires persona.role == System
    ensures SystemCount(WithUserTurn(persona, ms, text)) == if SystemCount(ms) == 0 then 1 else SystemCount(ms)
  {
    SystemCountZero(ms);
    var u := [Message(User, text)];
    assert SystemCount(u) == 0 by { assert u[1..] == []; }
    SystemCountAppend(ms, u);
    if !HasSystem(ms) {
      SystemCountAppend([persona], ms + u);
      assert [persona] + ms + u == [persona] + (ms + u);
      assert SystemCount([persona]) == 1 by { assert [persona][1..] == []; }
    }
  }

  /** The conversation starts with its one system message, which appears nowhere else. */
  predicate SystemFirstOnly(ms: seq<Message>) {
    |ms| >= 1 && ms[0].role == System && forall i :: 1 <= i < |ms| ==> ms[i].role != System
  }

  /** Starting from an empty conversation, or one shaped by earlier sends, the shape is kept. */
  lemma WithUserTurnShape(persona: Message, ms: seq<Message>, text: string)
    requires persona.role == System
    requires ms == [] || SystemFirstOnly(ms)
    ensures SystemFirstOnly(WithUserTurn(persona, ms, text))
  {
    var r := WithUserTurn(persona, ms, text);
    if ms != [] {
      assert HasSystem(ms) by { assert ms[0].role == System; }
      assert forall i :: 1 <= i < |r| - 1 ==> r[i] == ms[i];
    }
  }
}
