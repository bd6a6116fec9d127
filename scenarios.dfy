/**
 Whole turns of the widget, driven only through its methods and checked from
 their contracts: a reply, a failure, a quick action, blank input, and a second
 submission made with the Enter key while a reply is still pending.
 */
module Scenarios {
  import opened HtmlEscape
  import opened JsTrim
  import opened Chatbot

  /** A typed message is answered: afterwards the page shows the user's and
      then the bot's bubble after the earlier ones, no typing indicator, and
      the send button is enabled again. */
  method ReplyTurn(page: seq<Node>, typed: string, reply: string)
    requires Typing !in page && Trim(typed) != []
  {
    var bot := new MedicalChatbot(page, true, typed);
    bot.HandleFormSubmit();
    assert !bot.sendEnabled && bot.input == [];
    bot.HandleServerResponse(reply);
    TurnEffect(page, Trim(typed), reply);
    assert Typing !in bot.container && bot.sendEnabled;
    assert Messages(bot.container) == Messages(page)
      + [Msg(User, FormatMessage(Trim(typed)))] + [Msg(Bot, FormatMessage(reply))];
  }

  /** The same turn when the request fails: the bot's bubble is the
      fallback text, whatever the error was. */
  method ErrorTurn<E>(page: seq<Node>, typed: string, error: E)
    requires Typing !in page && Trim(typed) != []
  {
    var bot := new MedicalChatbot(page, true, typed);
    bot.HandleFormSubmit();
    bot.HandleServerError(error);
    TurnEffect(page, Trim(typed), ErrorReply);
    assert Typing !in bot.container && bot.sendEnabled;
    assert Messages(bot.container) == Messages(page)
      + [Msg(User, FormatMessage(Trim(typed)))] + [Msg(Bot, FormatMessage(ErrorReply))];
  }

  /** A quick action behaves exactly like typing its text and submitting. */
  method QuickActionTurn(page: seq<Node>, enabled: bool, typed: string, canned: string)
  {
    var quick := new MedicalChatbot(page, enabled, typed);
    quick.SendQuickMessage(canned);
    var manual := new MedicalChatbot(page, enabled, canned);
    manual.HandleFormSubmit();
    assert quick.container == manual.container;
    assert quick.sendEnabled == manual.sendEnabled && quick.input == manual.input;
  }

  /** Blank input changes nothing. */
  method BlankSubmit(page: seq<Node>, enabled: bool, blank: string)
    requires AllWhitespace(blank)
  {
    TrimEmptyIff(blank);
    var bot := new MedicalChatbot(page, enabled, blank);
    bot.HandleFormSubmit();
    assert bot.container == page && bot.sendEnabled == enabled && bot.input == blank;
  }

  /** The send button is disabled, but Enter still submits: two typing
      indicators are shown, and one reply leaves one of them and enables the
      send button while a request is still pending. */
  method SubmitWhileWaiting(page: seq<Node>, first: string, second: string, reply: string)
    requires Typing !in page && Trim(first) != [] && Trim(second) != []
  {
    var bot := new MedicalChatbot(page, true, first);
    bot.HandleFormSubmit();
    bot.input := second;
    bot.HandleFormSubmit();
    SecondSendTwoIndicators(page, Trim(first), Trim(second));
    assert multiset(bot.container)[Typing] == 2 && !bot.sendEnabled;
    var waiting := bot.container;
    bot.HandleServerResponse(reply);
    ReplyEffect(waiting, reply);
    assert multiset(bot.container)[Typing] == 1 && bot.sendEnabled;
  }
}
