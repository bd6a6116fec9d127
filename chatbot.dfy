/**
 The message lifecycle of the `MedicalChatbot` widget.  The page is modelled
 by three pieces of state: the children of the messages container, whether
 the send button is enabled, and the text of the input box.  A turn is
 `HandleFormSubmit` (which runs `SendMessage`) followed by one of the two
 outcomes of the network call, `HandleServerResponse` or `HandleServerError`.
 */
module Chatbot {
  import opened HtmlEscape
  import opened JsTrim

  datatype Sender = User | Bot

  /** A child of the messages container: the one-time welcome placeholder, a
      rendered message bubble holding the escaped text, or the typing indicator. */
  datatype Node = Welcome | Msg(sender: Sender, html: string) | Typing

  /** The fixed bot text shown when the request fails. */
  const ErrorReply: string :=
    "Sorry, I encountered an error while processing your request."
    + " Please try again later."

  // ---------------------------------------------------------------------
  // The container as a sequence of nodes

  /** Position of the first `n` in document order: what `querySelector` and
      `getElementById` find. */
  function IndexOf(s: seq<Node>, n: Node): (i: nat)
    requires n in s
    ensures i < |s| && s[i] == n && n !in s[..i]
  {
    if s[0] == n then 0
    else
      assert n in s[1..];
      var j := IndexOf(s[1..], n);
      assert s[..j + 1] == [s[0]] + s[1..][..j];
      j + 1
  }

  /** The container after the first `n`, if there is one, is removed from it. */
  function RemoveFirst(s: seq<Node>, n: Node): (r: seq<Node>)
    ensures n !in s ==> r == s
    ensures n in s ==> r == s[..IndexOf(s, n)] + s[IndexOf(s, n) + 1..]
  {
    if s == [] then []
    else if s[0] == n then
      assert s == [s[0]] + s[1..];
      s[1..]
    else
      var t := RemoveFirst(s[1..], n);
      if n in s then
        assert n in s[1..];
        var j := IndexOf(s[1..], n);
        assert IndexOf(s, n) == j + 1;
        assert s[..j + 1] == [s[0]] + s[1..][..j];
        assert s[j + 2..] == s[1..][j + 1..];
        [s[0]] + t
      else
        assert s == [s[0]] + s[1..];
        [s[0]] + t
  }

  /** Removal takes away one `n`, if there is one, and nothing else. */
  lemma RemoveFirstMultiset(s: seq<Node>, n: Node)
    ensures multiset(RemoveFirst(s, n)) == multiset(s) - multiset{n}
  {
    if n in s {
      var i := IndexOf(s, n);
      assert s == s[..i] + [n] + s[i + 1..];
    }
  }

  /** The message bubbles of a container, in order. */
  function Messages(s: seq<Node>): (r: seq<Node>)
    ensures forall k :: 0 <= k < |r| ==> r[k].Msg?
    ensures |r| <= |s|
  {
    if s == [] then []
    else (if s[0].Msg? then [s[0]] else []) + Messages(s[1..])
  }

  /** The container after `sendMessage(m)`: welcome removed, the user's
      bubble and a typing indicator appended. */
  function AfterSend(c: seq<Node>, m: string): seq<Node>
  {
    RemoveFirst(c, Welcome) + [Msg(User, FormatMessage(m)), Typing]
  }

  /** The container after a reply `text` arrives: the first typing indicator
      removed, the bot's bubble appended. */
  function AfterReply(c: seq<Node>, text: string): seq<Node>
  {
    RemoveFirst(c, Typing) + [Msg(Bot, FormatMessage(text))]
  }

  // ---------------------------------------------------------------------
  // Properties of the container operations

  /** With at most one match present, removing it a second time changes nothing. */
  lemma RemoveFirstIdempotent(s: seq<Node>, n: Node)
    requires multiset(s)[n] <= 1
    ensures RemoveFirst(RemoveFirst(s, n), n) == RemoveFirst(s, n)
  {
    var r := RemoveFirst(s, n);
    RemoveFirstMultiset(s, n);
    assert multiset(r)[n] == 0;
  }

  lemma {:induction false} MessagesConcat(a: seq<Node>, b: seq<Node>)
    ensures Messages(a + b) == Messages(a) + Messages(b)
  {
    if a == [] {
      assert a + b == b;
    } else {
      assert (a + b)[0] == a[0] && (a + b)[1..] == a[1..] + b;
      MessagesConcat(a[1..], b);
    }
  }

  /** Removing a welcome or typing node never removes a message bubble. */
  lemma MessagesRemoveFirst(s: seq<Node>, n: Node)
    requires !n.Msg?
    ensures Messages(RemoveFirst(s, n)) == Messages(s)
  {
    if n in s {
      var i := IndexOf(s, n);
      assert s == s[..i] + [s[i]] + s[i + 1..];
      MessagesConcat(s[..i] + [s[i]], s[i + 1..]);
      MessagesConcat(s[..i], [s[i]]);
      MessagesConcat(s[..i], s[i + 1..]);
    }
  }

  /** Sending appends exactly the user's escaped message to the bubbles and
      adds exactly one typing indicator; no welcome node is left if there was
      at most one. */
  lemma SendEffect(c: seq<Node>, m: string)
    ensures Messages(AfterSend(c, m)) == Messages(c) + [Msg(User, FormatMessage(m))]
    ensures multiset(AfterSend(c, m))[Typing] == multiset(c)[Typing] + 1
    ensures multiset(c)[Welcome] <= 1 ==> Welcome !in AfterSend(c, m)
  {
    var tail := [Msg(User, FormatMessage(m)), Typing];
    MessagesRemoveFirst(c, Welcome);
    RemoveFirstMultiset(c, Welcome);
    MessagesConcat(RemoveFirst(c, Welcome), tail);
    assert Messages(tail) == [Msg(User, FormatMessage(m))] by {
      assert tail[1..] == [Typing];
      assert tail[1..][1..] == [];
    }
    assert multiset(AfterSend(c, m)) == multiset(RemoveFirst(c, Welcome)) + multiset(tail);
  }

  /** A reply appends exactly the bot's escaped text after every earlier
      bubble and takes away one typing indicator if there was one. */
  lemma ReplyEffect(c: seq<Node>, text: string)
    ensures Messages(AfterReply(c, text)) == Messages(c) + [Msg(Bot, FormatMessage(text))]
    ensures multiset(AfterReply(c, text))[Typing] ==
              if Typing in c then multiset(c)[Typing] - 1 else 0
  {
    var tail := [Msg(Bot, FormatMessage(text))];
    MessagesRemoveFirst(c, Typing);
    RemoveFirstMultiset(c, Typing);
    MessagesConcat(RemoveFirst(c, Typing), tail);
    assert Messages(tail) == tail by { assert tail[1..] == []; }
    assert multiset(AfterReply(c, text)) == multiset(RemoveFirst(c, Typing)) + multiset(tail);
  }

  /** A whole turn begun with no typing indicator shown ends with none shown,
      and adds the user's then the bot's bubble. */
  lemma {:induction false} TurnEffect(c: seq<Node>, m: string, text: string)
    requires Typing !in c
    ensures Typing !in AfterReply(AfterSend(c, m), text)
    ensures Messages(AfterReply(AfterSend(c, m), text))
              == Messages(c) + [Msg(User, FormatMessage(m))] + [Msg(Bot, FormatMessage(text))]
  {
    var sent := AfterSend(c, m);
    var done := AfterReply(sent, text);
    var u, b := Msg(User, FormatMessage(m)), Msg(Bot, FormatMessage(text));
    assert multiset(sent)[Typing] == 1 && Messages(sent) == Messages(c) + [u] by {
      SendEffect(c, m);
    }
    assert multiset(done)[Typing] == 0 && Messages(done) == Messages(sent) + [b] by {
      ReplyEffect(sent, text);
    }
  }

  /** Nothing in `handleFormSubmit` looks at the send button, so a second
      submission before the reply shows two typing indicators. */
  lemma SecondSendTwoIndicators(c: seq<Node>, m1: string, m2: string)
    requires Typing !in c
    ensures multiset(AfterSend(AfterSend(c, m1), m2))[Typing] == 2
  {
    SendEffect(c, m1);
    SendEffect(AfterSend(c, m1), m2);
  }

  // ---------------------------------------------------------------------
  // The widget

  class MedicalChatbot {
    /** The children of `messagesContainer`, in document order. */
    var container: seq<Node>
    /** The negation of `sendButton.disabled`. */
    var sendEnabled: bool
    /** `messageInput.value`. */
    var input: string

    /** Binds the widget to a page whose container, send button and input
        box are in the given state. */
    constructor (page: seq<Node>, enabled: bool, text: string)
      ensures container == page && sendEnabled == enabled && input == text
    {
      container := page;
      sendEnabled := enabled;
      input := text;
    }

    /** The submit handler: a no-op when the trimmed input is empty,
        otherwise sends the trimmed text and clears the input. */
    method HandleFormSubmit()
      modifies this
      ensures var m := Trim(old(input));
        if m == [] then
          container == old(container) && sendEnabled == old(sendEnabled) && input == old(input)
        else
          container == AfterSend(old(container), m) && !sendEnabled && input == []
    {
      var message := Trim(input);
      if message != [] {
        SendMessage(message);
        ClearInput();
      }
    }

    method ClearInput()
      modifies this`input
      ensures input == []
    {
      input := [];
    }

    /** Removes the welcome node, shows the user's message and the typing
        indicator, and disables the send button.  The request itself is not
        part of this model; its two outcomes are the handlers below. */
    method SendMessage(message: string)
      modifies this`container, this`sendEnabled
      ensures container == AfterSend(old(container), message)
      ensures !sendEnabled
    {
      RemoveWelcomeMessage();
      AddMessage(message, User);
      ShowTypingIndicator();
      ToggleSendButton(false);
    }

    /** A quick action: puts its canned text in the input box and submits. */
    method SendQuickMessage(message: string)
      modifies this
      ensures var m := Trim(message);
        if m == [] then
          container == old(container) && sendEnabled == old(sendEnabled) && input == message
        else
          container == AfterSend(old(container), m) && !sendEnabled && input == []
    {
      input := message;
      HandleFormSubmit();
    }

    method RemoveWelcomeMessage()
      modifies this`container
      ensures container == RemoveFirst(old(container), Welcome)
    {
      container := RemoveFirst(container, Welcome);
    }

    /** Appends a bubble holding the escaped text (the timestamp is not
        modelled). */
    method AddMessage(content: string, sender: Sender)
      modifies this`container
      ensures container == old(container) + [Msg(sender, FormatMessage(content))]
    {
      container := container + [Msg(sender, FormatMessage(content))];
    }

    method ShowTypingIndicator()
      modifies this`container
      ensures container == old(container) + [Typing]
    {
      container := container + [Typing];
    }

    method HideTypingIndicator()
      modifies this`container
      ensures container == RemoveFirst(old(container), Typing)
    {
      container := RemoveFirst(container, Typing);
    }

    method ToggleSendButton(enabled: bool)
      modifies this`sendEnabled
      ensures sendEnabled == enabled
    {
      sendEnabled := enabled;
    }

    /** The reply `data` arrived: hide the indicator, show the reply, enable
        the send button. */
    method HandleServerResponse(data: string)
      modifies this`container, this`sendEnabled
      ensures container == AfterReply(old(container), data)
      ensures sendEnabled
    {
      HideTypingIndicator();
      AddMessage(data, Bot);
      ToggleSendButton(true);
    }

    /** The request failed: like a reply, but the text shown is always the
        fallback, whatever `error` is (it is only logged). */
    method HandleServerError<E>(error: E)
      modifies this`container, this`sendEnabled
      ensures container == AfterReply(old(container), ErrorReply)
      ensures sendEnabled
    {
      HideTypingIndicator();
      AddMessage(ErrorReply, Bot);
      ToggleSendButton(true);
    }
  }
}
