/**
 * The `messages.upsert` handler of index.js: it walks a batch of inbound messages and
 * sends at most one quoted reply per message. The whole walk sits inside one
 * try/catch, so the first exception (a missing `msg.key`, a rejected send) ends the
 * batch; it is logged and not rethrown.
 *
 * Whether the session accepts a send is outside the model: `sendOk(k)` says whether the
 * k-th send of the batch (counting from 0) goes through. Since a rejected send ends
 * the batch, the k-th attempt is made with exactly k replies already sent.
 */
module Dispatcher {
  import opened Wrappers
  import opened Inbound
  import opened Commands

  /** `sock.sendMessage(to, { text }, { quoted })`. */
  datatype Send = Send(to: string, text: string, quoted: Message)

  /** What one turn of the loop does with one message: nothing, throw, or reply. */
  datatype Action = Ignore | Throw | Reply(send: Send)

  /** Why a batch stopped early: reading `msg.key.remoteJid` of a message without a key
      throws a TypeError; `sendMessage` may reject. */
  datatype Cause = MissingKey | SendRejected

  /** `Aborted(at, cause)`: the message at index `at` threw and nothing after it ran. */
  datatype Outcome = Completed | Aborted(at: nat, cause: Cause)

  /** The replies sent, in order, and how the batch ended. */
  datatype Run = Run(outbox: seq<Send>, outcome: Outcome)

  predicate FromSelf(m: Message) {
    m.key.Some? && m.key.value.fromMe
  }

  /** One turn of the loop. A message without content, or sent by the bot itself, is
      skipped; a message with content but no key throws; otherwise a message whose text
      starts with `!` gets exactly one reply, to its sender's conversation, quoting it,
      whose text `answer` gives for that text (the handler uses `Commands.Answer`). */
  function Step(m: Message, answer: string -> string): (a: Action)
    ensures m.content.None? || FromSelf(m) ==> a == Ignore
    ensures a.Throw? <==> m.content.Some? && m.key.None?
    ensures a.Reply? <==>
      (m.content.Some? && m.key.Some? && !m.key.value.fromMe && IsCommandText(ExtractText(m.content.value)))
    ensures a.Reply? ==>
      (a.send.quoted == m && a.send.to == m.key.value.remoteJid && a.send.text == answer(ExtractText(m.content.value)))
  {
    if m.content.None? then Ignore
    else if FromSelf(m) then Ignore
    else if m.key.None? then Throw
    else
      var text := ExtractText(m.content.value);
      if text == "" then Ignore
      else if text[0] == Prefix then
        Reply(Send(m.key.value.remoteJid, answer(text), m))
      else Ignore
  }

  /** Continues a batch that has sent `outbox` so far with the message at index `i`. */
  function Resume(outbox: seq<Send>, m: Message, i: nat, sendOk: nat -> bool, answer: string -> string): Run {
    match Step(m, answer)
    case Ignore => Run(outbox, Completed)
    case Throw => Run(outbox, Aborted(i, MissingKey))
    case Reply(s) =>
      if sendOk(|outbox|) then Run(outbox + [s], Completed)
      else Run(outbox, Aborted(i, SendRejected))
  }

  /** The batch loop over `msgs`, message by message, stopping at the first exception. */
  function Dispatch(msgs: seq<Message>, sendOk: nat -> bool, answer: string -> string): Run
    decreases |msgs|
  {
    if msgs == [] then Run([], Completed)
    else
      var prev := Dispatch(msgs[..|msgs| - 1], sendOk, answer);
      if prev.outcome.Aborted? then prev
      else Resume(prev.outbox, msgs[|msgs| - 1], |msgs| - 1, sendOk, answer)
  }

  /** The handler: a missing `messages` array does nothing. */
  function OnUpsert(upsert: Upsert, sendOk: nat -> bool, answer: string -> string): (r: Run)
    ensures upsert.messages.None? ==> r == Run([], Completed)
    ensures upsert.messages.Some? ==> |r.outbox| <= |upsert.messages.value|
  {
    match upsert.messages
    case None => Run([], Completed)
    case Some(msgs) => AtMostOneReplyEach(msgs, sendOk, answer); Dispatch(msgs, sendOk, answer)
  }

  /** A batch never sends more replies than it has messages. */
  lemma {:induction false} AtMostOneReplyEach(msgs: seq<Message>, sendOk: nat -> bool, answer: string -> string)
    ensures |Dispatch(msgs, sendOk, answer).outbox| <= |msgs|
    decreases |msgs|
  {
    if msgs != [] {
      AtMostOneReplyEach(msgs[..|msgs| - 1], sendOk, answer);
    }
  }

  /** The replies that `msgs` call for, in order: one per message that `Step` answers.
      It is what the batch sends when nothing throws. */
  function Replies(msgs: seq<Message>, answer: string -> string): seq<Send>
    decreases |msgs|
  {
    if msgs == [] then []
    else
      var init := Replies(msgs[..|msgs| - 1], answer);
      match Step(msgs[|msgs| - 1], answer)
      case Reply(s) => init + [s]
      case _ => init
  }

  /** The `messages.upsert` handler: walks the batch, appending each reply that goes
      through to the outbox, and stops at the first exception. */
  method HandleUpsert(upsert: Upsert, sendOk: nat -> bool) returns (outbox: seq<Send>, outcome: Outcome)
    ensures Run(outbox, outcome) == OnUpsert(upsert, sendOk, Answer)
  {
    outbox, outcome := [], Completed;
    if upsert.messages.None? {
      return;
    }
    var msgs := upsert.messages.value;
    for i := 0 to |msgs|
      invariant Dispatch(msgs[..i], sendOk, Answer) == Run(outbox, Completed)
    {
      var msg := msgs[i];
      DispatchNext(msgs, i, sendOk, Answer);
      if msg.content.None? {
        continue;
      }
      if msg.key.Some? && msg.key.value.fromMe {
        continue;
      }
      if msg.key.None? {
        outcome := Aborted(i, MissingKey);
        AbortIsFinal(msgs, i + 1, sendOk, Answer);
        return;
      }
      var jid := msg.key.value.remoteJid;
      var text := ExtractText(msg.content.value);
      if text == "" {
        continue;
      }
      if text[0] == Prefix {
        var reply := Answer(text);
        assert Step(msg, Answer) == Reply(Send(jid, reply, msg));
        if !sendOk(|outbox|) {
          outcome := Aborted(i, SendRejected);
          AbortIsFinal(msgs, i + 1, sendOk, Answer);
          return;
        }
        outbox := outbox + [Send(jid, reply, msg)];
      }
    }
    assert msgs[..|msgs|] == msgs;
  }

  /** One more turn of a batch that has not stopped yet. */
  lemma DispatchNext(msgs: seq<Message>, i: nat, sendOk: nat -> bool, answer: string -> string)
    requires i < |msgs|
    requires Dispatch(msgs[..i], sendOk, answer).outcome.Completed?
    ensures Dispatch(msgs[..i + 1], sendOk, answer)
         == Resume(Dispatch(msgs[..i], sendOk, answer).outbox, msgs[i], i, sendOk, answer)
  {
    assert msgs[..i + 1][..i] == msgs[..i];
  }

  /** Once a prefix of the batch has thrown, the rest of the batch changes nothing. */
  lemma {:induction false} AbortIsFinal(msgs: seq<Message>, j: nat, sendOk: nat -> bool, answer: string -> string)
    requires j <= |msgs|
    requires Dispatch(msgs[..j], sendOk, answer).outcome.Aborted?
    ensures Dispatch(msgs, sendOk, answer) == Dispatch(msgs[..j], sendOk, answer)
    decreases |msgs|
  {
    if j < |msgs| {
      var init := msgs[..|msgs| - 1];
      assert init[..j] == msgs[..j];
      AbortIsFinal(init, j, sendOk, answer);
    } else {
      assert msgs[..j] == msgs;
    }
  }

  /** What a batch run means: if it completes, every message was handled and the outbox
      holds every reply the batch calls for; if it stops at message `at`, every message
      before it was handled, the outbox holds exactly their replies, and message `at`
      either has no key or is the command whose send was rejected. Every send in the
      outbox was accepted. */
  lemma {:induction false} DispatchMeaning(msgs: seq<Message>, sendOk: nat -> bool, answer: string -> string)
    ensures var r := Dispatch(msgs, sendOk, answer);
      var done := if r.outcome.Completed? then |msgs| else r.outcome.at;
      && done <= |msgs|
      && r.outbox == Replies(msgs[..done], answer)
      && (forall j :: 0 <= j < done ==> !Step(msgs[j], answer).Throw?)
      && (forall k :: 0 <= k < |r.outbox| ==> sendOk(k))
      && (r.outcome.Aborted? ==> done < |msgs|)
      && (r.outcome == Aborted(done, MissingKey) ==> Step(msgs[done], answer).Throw?)
      && (r.outcome == Aborted(done, SendRejected) ==> Step(msgs[done], answer).Reply? && !sendOk(|r.outbox|))
    decreases |msgs|
  {
    if msgs == [] {
      assert msgs[..0] == [];
    } else {
      var n := |msgs|;
      var init := msgs[..n - 1];
      DispatchMeaning(init, sendOk, answer);
      var prev := Dispatch(init, sendOk, answer);
      if prev.outcome.Aborted? {
        assert init[..prev.outcome.at] == msgs[..prev.outcome.at];
      } else {
        assert init[..n - 1] == init;
        assert msgs[..n] == msgs;
        assert msgs[..n - 1] == init;
        var r := Resume(prev.outbox, msgs[n - 1], n - 1, sendOk, answer);
        assert Dispatch(msgs, sendOk, answer) == r;
        match Step(msgs[n - 1], answer)
        case Ignore =>
          assert Replies(msgs, answer) == Replies(init, answer);
        case Throw =>
          assert r.outcome == Aborted(n - 1, MissingKey);
        case Reply(s) =>
          assert Replies(msgs, answer) == Replies(init, answer) + [s];
      }
    }
  }

  /** Conversely, a batch in which no message lacks its key and every send goes through
      completes, having sent every reply it calls for. */
  lemma {:induction false} DispatchCompletes(msgs: seq<Message>, sendOk: nat -> bool, answer: string -> string)
    requires forall j :: 0 <= j < |msgs| ==> !Step(msgs[j], answer).Throw?
    requires forall k :: 0 <= k < |Replies(msgs, answer)| ==> sendOk(k)
    ensures Dispatch(msgs, sendOk, answer) == Run(Replies(msgs, answer), Completed)
    decreases |msgs|
  {
    if msgs != [] {
      var init := msgs[..|msgs| - 1];
      assert |Replies(init, answer)| <= |Replies(msgs, answer)|;
      DispatchCompletes(init, sendOk, answer);
    }
  }

  /** Each reply the batch calls for answers a message of the batch: it quotes that
      message, goes to its sender's conversation, and is the one reply `Step` gives it. */
  lemma {:induction false} RepliesAnswerMessages(msgs: seq<Message>, answer: string -> string)
    ensures forall k :: 0 <= k < |Replies(msgs, answer)| ==>
      Replies(msgs, answer)[k].quoted in msgs && Step(Replies(msgs, answer)[k].quoted, answer) == Reply(Replies(msgs, answer)[k])
    decreases |msgs|
  {
    if msgs != [] {
      var init := msgs[..|msgs| - 1];
      RepliesAnswerMessages(init, answer);
      forall k | 0 <= k < |Replies(msgs, answer)|
        ensures Replies(msgs, answer)[k].quoted in msgs && Step(Replies(msgs, answer)[k].quoted, answer) == Reply(Replies(msgs, answer)[k])
      {
        if k < |Replies(init, answer)| {
          assert Replies(msgs, answer)[k] == Replies(init, answer)[k];
          assert Replies(init, answer)[k].quoted in init;
        } else {
          assert msgs[|msgs| - 1] in msgs;
        }
      }
    }
  }

  /** The replies of two batches handled one after the other are the replies of the
      joined batch: each message contributes its own reply, and only its own. */
  lemma {:induction false} RepliesConcat(a: seq<Message>, b: seq<Message>, answer: string -> string)
    ensures Replies(a + b, answer) == Replies(a, answer) + Replies(b, answer)
    decreases |b|
  {
    if b == [] {
      assert a + b == a;
    } else {
      var b' := b[..|b| - 1];
      assert (a + b)[..|a + b| - 1] == a + b';
      assert (a + b)[|a + b| - 1] == b[|b| - 1];
      RepliesConcat(a, b', answer);
    }
  }

  /** The index of an abort, seen after one message is inserted at position `from`. */
  function Shifted(o: Outcome, from: nat): Outcome {
    if o.Aborted? && o.at >= from then Aborted(o.at + 1, o.cause) else o
  }

  /** A message the loop skips (no content, sent by the bot itself, no text, no `!`)
      can be inserted anywhere in a batch without changing what is sent or how the
      batch ends. */
  lemma {:induction false} IgnoredMessageChangesNothing(a: seq<Message>, m: Message, b: seq<Message>, sendOk: nat -> bool, answer: string -> string)
    requires Step(m, answer) == Ignore
    ensures var r := Dispatch(a + b, sendOk, answer);
      Dispatch(a + [m] + b, sendOk, answer) == Run(r.outbox, Shifted(r.outcome, |a|))
    decreases |b|
  {
    if b == [] {
      assert a + [m] + b == a + [m];
      assert a + b == a;
      IgnoredLast(a, m, sendOk, answer);
    } else {
      var b' := b[..|b| - 1];
      var x := a + [m] + b;
      var y := a + b;
      assert x[..|x| - 1] == a + [m] + b';
      assert y[..|y| - 1] == a + b';
      assert x[|x| - 1] == y[|y| - 1] == b[|b| - 1];
      IgnoredMessageChangesNothing(a, m, b', sendOk, answer);
      var prev := Dispatch(a + b', sendOk, answer);
      if prev.outcome.Completed? {
        assert Dispatch(x, sendOk, answer) == Resume(prev.outbox, b[|b| - 1], |x| - 1, sendOk, answer);
        assert Dispatch(y, sendOk, answer) == Resume(prev.outbox, b[|b| - 1], |y| - 1, sendOk, answer);
      }
    }
  }

  /** The base case of `IgnoredMessageChangesNothing`: a skipped message at the end. */
  lemma IgnoredLast(a: seq<Message>, m: Message, sendOk: nat -> bool, answer: string -> string)
    requires Step(m, answer) == Ignore
    ensures var r := Dispatch(a, sendOk, answer);
      Dispatch(a + [m], sendOk, answer) == Run(r.outbox, Shifted(r.outcome, |a|))
  {
    assert (a + [m])[..|a|] == a;
    DispatchMeaning(a, sendOk, answer);
  }

  /** A message sent by the bot itself is never answered, whatever it says. */
  lemma SelfMessagesIgnored(msgs: seq<Message>, sendOk: nat -> bool, answer: string -> string)
    ensures forall k :: 0 <= k < |Dispatch(msgs, sendOk, answer).outbox| ==>
      !FromSelf(Dispatch(msgs, sendOk, answer).outbox[k].quoted)
  {
    DispatchMeaning(msgs, sendOk, answer);
    var r := Dispatch(msgs, sendOk, answer);
    var done := if r.outcome.Completed? then |msgs| else r.outcome.at;
    RepliesAnswerMessages(msgs[..done], answer);
  }

  /** A batch of one message that `Step` answers sends that one reply when the send
      goes through. */
  lemma SingleReply(m: Message, sendOk: nat -> bool, answer: string -> string)
    requires Step(m, answer).Reply? && sendOk(0)
    ensures Dispatch([m], sendOk, answer) == Run([Step(m, answer).send], Completed)
  {
    assert [m][..0] == [];
  }

  /** `!` and a name that lower-cases to `ping` is answered `Pong!`. */
  lemma PingAnswer(name: string)
    requires JsText.IsWord(name) && JsText.ToLower(name) == "ping"
    ensures Answer([Prefix] + name) == PongReply
  {
    ParseBare([Prefix] + name, name);
  }

  /** A batch of one message whose text is `!` and a name that lower-cases to `ping`,
      from someone else, gets exactly one quoted `Pong!` to the sender when the send
      goes through. */
  lemma PingScenario(m: Message, name: string, sendOk: nat -> bool)
    requires m.key.Some? && !m.key.value.fromMe
    requires m.content.Some? && m.content.value.conversation == Some([Prefix] + name)
    requires JsText.IsWord(name) && JsText.ToLower(name) == "ping"
    requires sendOk(0)
    ensures Dispatch([m], sendOk, Answer) == Run([Send(m.key.value.remoteJid, PongReply, m)], Completed)
  {
    PingAnswer(name);
    assert ExtractText(m.content.value) == [Prefix] + name;
    SingleReply(m, sendOk, Answer);
  }

  /** A batch in which every message is skipped (no content, sent by the bot itself,
      or text that does not start with `!`) sends nothing and completes. */
  lemma {:induction false} NoCommandNoSend(msgs: seq<Message>, sendOk: nat -> bool, answer: string -> string)
    requires forall j :: 0 <= j < |msgs| ==>
      (msgs[j].content.None? || FromSelf(msgs[j])
       || (msgs[j].key.Some? && !IsCommandText(ExtractText(msgs[j].content.value))))
    ensures Dispatch(msgs, sendOk, answer) == Run([], Completed)
    decreases |msgs|
  {
    if msgs != [] {
      NoCommandNoSend(msgs[..|msgs| - 1], sendOk, answer);
    }
  }
}
