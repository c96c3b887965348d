/** The research-assistant chat: an append-only message log that starts with a greeting,
    the input line, and the echo reply that arrives after each sent message.

    The half-second timer is not modelled as time: each scheduled echo waits in `pending`
    until `DeliverEcho` fires it, in the order the messages were sent. */
module Chat {
  import opened Wrappers
  import opened Text

  datatype Role = User | Assistant
  datatype Message = Message(role: Role, content: string)

  const Greeting: Message := Message(Assistant, "Hello! How can I assist you with your research today?")

  /** The reply the assistant gives to `content`. */
  function Echo(content: string): (r: string)
    ensures |r| == |content| + 10
    ensures r[..10] == "You said: "
    ensures r[10..] == content
  {
    "You said: " + content
  }

  /** The contents of the messages of one role, in log order. */
  function Contents(log: seq<Message>, role: Role): (r: seq<string>)
    ensures |r| <= |log|
  {
    if log == [] then []
    else
      var last := log[|log| - 1];
      Contents(log[..|log| - 1], role) + (if last.role == role then [last.content] else [])
  }

  /** The replies to `sent`, in order. */
  function Echoes(sent: seq<string>): (r: seq<string>)
    ensures |r| == |sent|
    ensures forall i :: 0 <= i < |sent| ==> r[i] == Echo(sent[i])
  {
    if sent == [] then [] else Echoes(sent[..|sent| - 1]) + [Echo(sent[|sent| - 1])]
  }

  /** The contents of one role come only from messages of that role. */
  lemma {:induction false} ContentsFromRole(log: seq<Message>, role: Role)
    ensures forall c :: c in Contents(log, role) ==> Message(role, c) in log
  {
    if log != [] {
      var init, last := log[..|log| - 1], log[|log| - 1];
      ContentsFromRole(init, role);
      assert log == init + [last];
      forall c | c in Contents(log, role) ensures Message(role, c) in log {
        if c in Contents(init, role) {
          assert Message(role, c) in init;
        } else {
          assert last.role == role && c == last.content;
          assert last in log;
        }
      }
    }
  }

  lemma ContentsAppend(log: seq<Message>, m: Message, role: Role)
    ensures Contents(log + [m], role) == Contents(log, role) + (if m.role == role then [m.content] else [])
  {
    assert (log + [m])[..|log|] == log;
  }

  /** Two different inputs never get the same reply. */
  lemma EchoInjective(a: string, b: string)
    requires Echo(a) == Echo(b)
    ensures a == b
  {
    assert a == Echo(a)[10..];
  }

  /** The log opens with the greeting; after it, the user messages are exactly the sent
      inputs and the assistant messages are the echoes of those already delivered, which
      are the sent inputs before the pending ones. */
  ghost predicate Consistent(log: seq<Message>, pending: seq<string>, sent: seq<string>) {
    |log| >= 1 && log[0] == Greeting &&
    |pending| <= |sent| &&
    pending == sent[|sent| - |pending|..] &&
    Contents(log, User) == sent &&
    Contents(log[1..], Assistant) == Echoes(sent[..|sent| - |pending|])
  }

  /** Sending keeps the log consistent. */
  lemma SendKeepsConsistent(log: seq<Message>, pending: seq<string>, sent: seq<string>, input: string)
    requires Consistent(log, pending, sent)
    ensures Consistent(log + [Message(User, input)], pending + [input], sent + [input])
  {
    UserMessageAdds(log, sent, input);
    UserMessageKeepsReplies(log, input);
    PendingAppend(pending, sent, input);
  }

  /** A user message adds its text to the user contents. */
  lemma UserMessageAdds(log: seq<Message>, sent: seq<string>, input: string)
    requires Contents(log, User) == sent
    ensures Contents(log + [Message(User, input)], User) == sent + [input]
  {
    ContentsAppend(log, Message(User, input), User);
  }

  /** A user message leaves the replies after the greeting as they were. */
  lemma UserMessageKeepsReplies(log: seq<Message>, input: string)
    requires |log| >= 1
    ensures Contents((log + [Message(User, input)])[1..], Assistant) == Contents(log[1..], Assistant)
  {
    var m := Message(User, input);
    assert (log + [m])[1..] == log[1..] + [m];
    ContentsAppend(log[1..], m, Assistant);
  }

  /** Sending one more input makes it the newest pending one and leaves the delivered ones. */
  lemma PendingAppend(pending: seq<string>, sent: seq<string>, input: string)
    requires |pending| <= |sent| && pending == sent[|sent| - |pending|..]
    ensures pending + [input] == (sent + [input])[|sent| - |pending|..]
    ensures (sent + [input])[..|sent| - |pending|] == sent[..|sent| - |pending|]
  {
  }

  /** Delivering the oldest pending echo keeps the log consistent. */
  lemma DeliverKeepsConsistent(log: seq<Message>, pending: seq<string>, sent: seq<string>)
    requires Consistent(log, pending, sent) && pending != []
    ensures Consistent(log + [Message(Assistant, Echo(pending[0]))], pending[1..], sent)
  {
    var k := |sent| - |pending|;
    PendingPop(pending, sent);
    ReplyKeepsUsers(log, Echo(pending[0]));
    ReplyAdds(log, sent, k);
  }

  /** The oldest pending input is the first undelivered one, and the rest stay pending. */
  lemma PendingPop(pending: seq<string>, sent: seq<string>)
    requires |pending| <= |sent| && pending == sent[|sent| - |pending|..] && pending != []
    ensures sent[|sent| - |pending|] == pending[0]
    ensures pending[1..] == sent[|sent| - |pending| + 1..]
  {
  }

  /** A reply leaves the user contents as they were. */
  lemma ReplyKeepsUsers(log: seq<Message>, reply: string)
    ensures Contents(log + [Message(Assistant, reply)], User) == Contents(log, User)
  {
    ContentsAppend(log, Message(Assistant, reply), User);
  }

  /** The reply to the next undelivered input extends the delivered replies by one. */
  lemma ReplyAdds(log: seq<Message>, sent: seq<string>, k: int)
    requires |log| >= 1 && 0 <= k < |sent|
    requires Contents(log[1..], Assistant) == Echoes(sent[..k])
    ensures Contents((log + [Message(Assistant, Echo(sent[k]))])[1..], Assistant) == Echoes(sent[..k + 1])
  {
    var m := Message(Assistant, Echo(sent[k]));
    assert (log + [m])[1..] == log[1..] + [m];
    ContentsAppend(log[1..], m, Assistant);
    var s := sent[..k + 1];
    assert s[..|s| - 1] == sent[..k];
  }

  class ChatDialog {
    var messages: seq<Message>
    var input: string
    /** The inputs whose echo is still scheduled, oldest first. */
    var pending: seq<string>
    /** Every input sent so far. */
    ghost var sent: seq<string>

    ghost predicate Valid()
      reads this
    {
      Consistent(messages, pending, sent)
    }

    constructor()
      ensures Valid()
      ensures messages == [Greeting] && input == "" && pending == [] && sent == []
    {
      messages := [Greeting];
      input := "";
      pending := [];
      sent := [];
      new;
      assert messages[1..] == [];
    }

    method SetInput(value: string)
      requires Valid()
      modifies this
      ensures Valid()
      ensures input == value
      ensures messages == old(messages) && pending == old(pending) && sent == old(sent)
    {
      input := value;
    }

    /** `sendMessage`: a blank input changes nothing; otherwise the untrimmed input is
        appended as a user message, the input line is cleared and its echo scheduled. */
    method SendMessage()
      requires Valid()
      modifies this
      ensures Valid()
      ensures old(messages) <= messages
      ensures IsBlank(old(input)) ==>
                messages == old(messages) && input == old(input) && pending == old(pending) && sent == old(sent)
      ensures !IsBlank(old(input)) ==>
                messages == old(messages) + [Message(User, old(input))] && input == "" &&
                pending == old(pending) + [old(input)] && sent == old(sent) + [old(input)]
    {
      TrimEmptyIffBlank(input);
      if Trim(input) == [] {
        return;
      }
      SendKeepsConsistent(messages, pending, sent, input);
      messages := messages + [Message(User, input)];
      pending := pending + [input];
      sent := sent + [input];
      input := "";
    }

    /** The timer of the oldest scheduled echo fires: "You said: <input>" is appended. */
    method DeliverEcho()
      requires Valid()
      modifies this
      ensures Valid()
      ensures old(messages) <= messages && input == old(input) && sent == old(sent)
      ensures old(pending) == [] ==> messages == old(messages) && pending == []
      ensures old(pending) != [] ==>
                messages == old(messages) + [Message(Assistant, Echo(old(pending)[0]))] &&
                pending == old(pending)[1..]
    {
      if pending == [] {
        return;
      }
      DeliverKeepsConsistent(messages, pending, sent);
      messages := messages + [Message(Assistant, Echo(pending[0]))];
      pending := pending[1..];
    }
  }

  /** On a fresh dialog, sending a non-blank text and letting its timer fire leaves the
      greeting, the user's text and the reply "You said: " followed by that text. */
  method SendThenEcho(text: string) returns (log: seq<Message>)
    requires !IsBlank(text)
    ensures log == [Greeting, Message(User, text), Message(Assistant, Echo(text))]
  {
    var c := new ChatDialog();
    c.SetInput(text);
    c.SendMessage();
    var afterSend := c.messages;
    assert afterSend == [Greeting, Message(User, text)] && c.pending == [text];
    c.DeliverEcho();
    log := c.messages;
    assert log == afterSend + [Message(Assistant, Echo(text))];
  }
}
