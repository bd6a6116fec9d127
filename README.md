# Medical chatbot widget: a verified model

The widget in `static/js/script.js` is a class, `MedicalChatbot`, that turns
form submissions into message bubbles, calls the server, and renders its reply.
This project models the two parts of it that hold logic.

- **`formatMessage`**, the HTML escaper (module `HtmlEscape`, `escape.dfy`).
  It is a chain of six global replacements: `&` to `&amp;`, `<` to `&lt;`,
  `>` to `&gt;`, `"` to `&quot;`, `'` to `&#39;`, newline to `<br>`. The chain
  is written out literally (`ReplaceChain`, built from `ReplaceAll`, one
  `.replace(/c/g, rep)` each). It is written again as a per-character map
  (`FormatMessage`). The two are proved equal on every input. Only the
  per-character form is used elsewhere. Proved about it:
  - it distributes over concatenation;
  - it leaves text without special characters unchanged, and only such text;
  - its output is safe: the predicate `Safe` says there is no quote and no
    newline, every `<` and `>` belongs to an inserted `<br>`, and every `&`
    begins one of the five entities;
  - a decoder (`Unescape`) gives the input back, so the escaper is injective.
- **The message lifecycle** (module `Chatbot`, `chatbot.dfy`). The class
  `MedicalChatbot` has three fields:
  - `container`: the children of the messages container, a sequence of
    `Welcome`, `Msg(sender, html)` and `Typing` nodes;
  - `sendEnabled`: the negation of `sendButton.disabled`;
  - `input`: the value of the text box.

  Each lifecycle method has a `modifies` clause naming only the fields it
  writes. Its postcondition gives the new state in terms of the old. Removing
  the welcome or typing node takes away the first equal node, if there is one
  (`RemoveFirst`). The source finds that node with `querySelector` or
  `getElementById`, which return the first match in document order. The
  lemmas beside the class say what a send, a reply and a whole turn do to the
  message bubbles (`Messages`) and to the number of typing indicators.
- `String.prototype.trim`, used by the submit handler, is modelled in module
  `JsTrim` (`trim.dfy`). White space is the fixed set of code points in
  ECMAScript's WhiteSpace and LineTerminator productions.
- `scenarios.dfy` drives whole turns through the class methods:
  - a reply;
  - a failure;
  - a quick action, which behaves exactly like typing the same text;
  - blank input, which changes nothing;
  - a second submission while a reply is pending.

**One request at a time is not enforced.** The send button is disabled
while a reply is pending, which suggests one request at a time. Nothing
enforces it. `handleFormSubmit` (static/js/script.js:49-56) never reads
`sendButton.disabled`. The Enter key handler (`handleKeydown`,
static/js/script.js:61-66) and `sendQuickMessage` (static/js/script.js:107-110)
both dispatch `submit` directly. So a second submission while a reply is
pending adds a second typing indicator. `SecondSendTwoIndicators` and
`Scenarios.SubmitWhileWaiting` show this. The first reply then removes only
the first indicator and enables the send button while a request is still
pending. None of the lifecycle contracts assume a single indicator.

## Model

| member | source | states |
|---|---|---|
| `HtmlEscape.ReplaceAll` | static/js/script.js:152-157 | One global single-character `.replace` with a replacement string free of `$`, as all six are: when the pattern character is absent the text is unchanged; when the replacement lacks it, none is left in the result |
| `HtmlEscape.ReplaceAllConcat` | static/js/script.js:152-157 | A global replacement of one character acts on each part of a concatenation separately |
| `HtmlEscape.ReplaceChain` | static/js/script.js:151-157 | No contract of its own: the six global replacements of `formatMessage` in the source's order with the source's replacement strings; `ChainIsPerCharacter` proves it equal to `FormatMessage` |
| `HtmlEscape.EscapeChar` | static/js/script.js:152-157 | No contract of its own: the escape of one character (`&amp;`, `&lt;`, `&gt;`, `&quot;`, `&#39;`, `<br>`, or the character itself); `ReplaceChainChar` proves it is what the chain makes of that character |
| `HtmlEscape.ReplaceChainChar` | static/js/script.js:151-157 | On a single character the six-step chain yields exactly that character's escape: `&` is replaced first, and no later step matches a character an earlier one inserted |
| `HtmlEscape.ChainIsPerCharacter` | static/js/script.js:149-158 | The literal replace chain of `formatMessage` equals the per-character map on every input |
| `HtmlEscape.FormatMessage` | static/js/script.js:149-158 | The output is never shorter than the input, and it is empty exactly when the input is |
| `HtmlEscape.FormatMessageConcat` | static/js/script.js:151-157 | Escaping distributes over concatenation |
| `HtmlEscape.FormatMessageIdentity` | static/js/script.js:151-157 | The output equals the input if and only if the input has none of `& < > " '` or newline |
| `HtmlEscape.EscapeCharSafe` | static/js/script.js:152-157 | Each of the six replacements, and every other character, is safe text on its own |
| `HtmlEscape.SafeConcat` | static/js/script.js:151-157 | Safe text joined to safe text is safe, so the escapes of consecutive characters cannot combine into markup |
| `HtmlEscape.FormatMessageSafe` | static/js/script.js:150-157 | For every input the output has no `"`, `'` or newline; every `<` and `>` in it belongs to an inserted `<br>`; every `&` begins `&amp;`, `&lt;`, `&gt;`, `&quot;` or `&#39;` |
| `HtmlEscape.UnescapeEscapeChar` | static/js/script.js:151-157 | Decoding the escape of one character, followed by any text, yields that character and then the decoding of the text |
| `HtmlEscape.UnescapeFormatMessage` | static/js/script.js:151-157 | Decoding the five entities and `<br>` in the output of `formatMessage` gives back the original input |
| `HtmlEscape.FormatMessageInjective` | static/js/script.js:151-157 | Two messages with the same rendering are equal |
| `JsTrim.TrimStart` | static/js/script.js:51 | The result is a suffix of the input, does not begin with white space, and everything cut off is white space |
| `JsTrim.TrimEnd` | static/js/script.js:51 | The result is a prefix of the input, does not end with white space, and everything cut off is white space |
| `JsTrim.Trim` | static/js/script.js:51 | `value.trim()` is no longer than the input and neither begins nor ends with white space |
| `JsTrim.TrimSlice` | static/js/script.js:51 | The trimmed text is a contiguous slice of the input, and everything before and after that slice is white space |
| `JsTrim.TrimEmptyIff` | static/js/script.js:51-52 | The trimmed message is empty, so that `if (message)` fails, exactly when the input is all white space |
| `JsTrim.TrimIdempotent` | static/js/script.js:51 | Trimming the trimmed text changes nothing |
| `Chatbot.ErrorReply` | static/js/script.js:276-279 | No contract of its own: the fixed fallback text `handleServerError` shows, character for character as in the source; it is what `HandleServerError` appends whatever the error |
| `Chatbot.IndexOf` | static/js/script.js:116 | The node found is the first equal node in document order: it is at the returned position and nowhere before it |
| `Chatbot.RemoveFirst` | static/js/script.js:115-120 | With no matching node the container is unchanged; otherwise exactly the first matching node is removed, and the nodes before and after it keep their order |
| `Chatbot.RemoveFirstMultiset` | static/js/script.js:198-203 | Removal takes away one copy of the node if there is one, and no other node |
| `Chatbot.RemoveFirstIdempotent` | static/js/script.js:198-203 | With at most one matching node present, removing it a second time changes nothing |
| `Chatbot.MessagesRemoveFirst` | static/js/script.js:117-119 | Removing the welcome or typing node never removes or reorders a message bubble |
| `Chatbot.SendEffect` | static/js/script.js:87-98 | After a send the bubbles are the earlier ones plus the user's escaped message, one more typing indicator is shown, and no welcome node is left when there was at most one |
| `Chatbot.ReplyEffect` | static/js/script.js:265-269 | After a reply the bubbles are the earlier ones plus the bot's escaped text, and there is one typing indicator fewer if there was one |
| `Chatbot.TurnEffect` | static/js/script.js:87-98 | A turn begun with no typing indicator ends with none, and adds the user's then the bot's bubble after every earlier one |
| `Chatbot.SecondSendTwoIndicators` | static/js/script.js:49-56 | Two sends with no reply between them, which the unguarded submit handler allows, show two typing indicators |
| `Chatbot.MedicalChatbot.constructor` | static/js/script.js:7-14 | The widget starts from the page's container, send button and input as they are |
| `Chatbot.MedicalChatbot.HandleFormSubmit` | static/js/script.js:49-56 | With blank trimmed input the container, the send button and the input are unchanged; otherwise it sends the trimmed text and clears the input |
| `Chatbot.MedicalChatbot.ClearInput` | static/js/script.js:79-82 | The input box is emptied and nothing else changes |
| `Chatbot.MedicalChatbot.SendMessage` | static/js/script.js:87-102 | Removes the first welcome node, leaves every other node in order, appends exactly the user's escaped message and one typing indicator, and disables the send button |
| `Chatbot.MedicalChatbot.SendQuickMessage` | static/js/script.js:107-110 | A quick action has exactly the effect of typing its text and submitting |
| `Chatbot.MedicalChatbot.RemoveWelcomeMessage` | static/js/script.js:115-120 | The first welcome node, if any, is removed and nothing else changes |
| `Chatbot.MedicalChatbot.AddMessage` | static/js/script.js:125-144 | Exactly one bubble is appended, holding the sender and the escaped text |
| `Chatbot.MedicalChatbot.ShowTypingIndicator` | static/js/script.js:173-193 | Exactly one typing indicator is appended |
| `Chatbot.MedicalChatbot.HideTypingIndicator` | static/js/script.js:198-203 | The first typing indicator, if any, is removed and nothing else changes |
| `Chatbot.MedicalChatbot.ToggleSendButton` | static/js/script.js:208-210 | The send button's state becomes the argument and nothing else changes |
| `Chatbot.MedicalChatbot.HandleServerResponse` | static/js/script.js:265-269 | Removes the first typing indicator and no other node, appends exactly the bot's escaped reply, and enables the send button |
| `Chatbot.MedicalChatbot.HandleServerError` | static/js/script.js:274-282 | Like a reply, but the appended text is always the fixed fallback, whatever the error |

## Left out

- `sendToServer` (static/js/script.js:222-260) is a `fetch` POST to `/get` with a promise chain. It is not modelled. Its two outcomes are the calls to `HandleServerResponse` and `HandleServerError`. The commented-out jQuery block is dead code.
- The timestamp of a message (`getCurrentTime`, `ChatUtils.formatTime`) is not modelled. It depends on the clock and the locale. A `Msg` node holds only the sender and the escaped text.
- The markup around a message (avatar icon, class names) and the markup of the typing indicator are not modelled. Neither depends on the message text except through `formatMessage`.
- `autoResizeTextarea`, `scrollToBottom` and the height reset in `clearInput` are not modelled. They only set layout pixel values.
- `ChatUtils.escapeHtml` is not modelled. It relies on the browser's HTML serialiser. `ChatUtils.isInViewport` is not modelled either. It uses floating-point layout geometry.
- `simulateBotResponse` and `sendToServerSimulation` are not modelled. They use `Math.random` and `setTimeout`.
- Event wiring is not modelled: `initializeEventListeners`, `initializeQuickActions`, `handleKeydown`, `e.preventDefault()`, the `DOMContentLoaded` hook and the module export. A quick action is modelled from the point where it sets the input and submits (`SendQuickMessage`).
- `console.error` logging is not modelled.
- The source looks up the welcome node and the typing indicator in the whole document. The model looks only in the message container.
- JavaScript strings are sequences of UTF-16 code units. Here a `char` is a Unicode scalar value, so a lone surrogate cannot be represented. In the source such a message is shown, but `encodeURIComponent` (static/js/script.js:229) then throws a `URIError` synchronously, before `fetch` is called and outside its `.catch`. The exception leaves `sendMessage`, so the send button stays disabled, the typing indicator stays shown and `clearInput` never runs. The model does not capture this path. The white-space set of `trim` follows the current Unicode space separators (category Zs).
- Asynchrony is not modelled. A reply or failure is a method call made whenever the caller chooses.
