# Jarvis voice assistant: the dispatcher and its listening loop

The assistant listens for a wake phrase (`"hey jarvis"` or `"jarvis"`, in any
casing, at the start of what was heard), acknowledges it, then listens for one
command. It classifies that command by four ordered string tests on its
lower-cased text and carries it out:

- open a web site;
- play a song from a video search;
- read out the top news headlines;
- or ask a language model.

When the command has been carried out, it goes back to waiting for the wake phrase.

This project models that core in Dafny:

- `text.dfy` (module `Text`): the Python string operations the dispatcher relies on.
  - `lower` covers ASCII letters only.
  - `strip` removes exactly the characters for which Python's `isspace` holds.
  - `in`, `startswith`, `replace`, `split(sep, 1)` and `str(int)`, with the substring search (`FindFrom`) that `in` and `split` perform.
  - Each one is related by lemmas to an independent description: an occurrence at an index, a run of white space, a decimal value.
  - `replace` is pinned down by two facts. Text without the pattern comes back unchanged. Otherwise the text before the first occurrence is kept, that occurrence becomes the replacement, and the rest is replaced in turn.
- `services.dfy` (module `Services`): what the assistant does and what the world answers.
  - Every external action is an `Effect` appended to a trace: `Speak`, `OpenUrl`, `SearchSong`, `FetchNews`, `AskAI`.
  - The answers of the video search, the headline service and the language model are not computed. They arrive as `Replies` alongside each recognised utterance.
- `news.dfy` (module `News`): `get_news`.
  - Checks the service's answer and keeps at most five titles.
  - Builds the spoken text in a loop (`BuildNewsText`), proved equal to its specification `NewsUtterance`.
- `commands.dfy` (module `Commands`): `processCommand` (`Classify`, `Perform`, `ProcessCommand`), `play_song` and `ask_gemini`.
- `dialogue.dfy` (module `Dialogue`): the nested `while True` loops of the main program.
  - Modelled as a two-mode machine, `AwaitingWake` / `AwaitingCommand`.
  - Its specification is the function `Transition` (one round) and its fold `Replay` (a finite run).
  - The class `Assistant` holds the mode and the effect trace. Its methods `Step` and `Run` are proved to follow `Transition` and `Replay`.

The model follows the code in places where a prose description of the assistant could suggest otherwise:

- **Open-site target.** The site name is the lower-cased command with every `"open "` removed, then stripped (`main.py:125`). It is not "the text after the first `open `".
  - Any open command opens `https://www.<site>.com` for that site name and announces it (`Commands.OpenCommandEffects`).
  - So `"please open github"` opens `https://www.please github.com`: the site name is `please github` (`Commands.OpenAfterWords`).
  - And `"open open github"` opens `https://www.github.com`: the site name is `github` (`Commands.OpenOpen`).
- **Failed listen in command mode.** A failure of `listen` itself in command mode (`main.py:161-164`) is outside the inner `try`. The outer handlers catch it and the assistant returns to waiting for the wake phrase. Only failures of the recogniser (`main.py:166`) keep it in command mode.

## Model

| member | source | states |
|---|---|---|
| `Text.Lower` | main.py:122 | same length, no ASCII capital left; only capitals change, each to the letter 32 code points above |
| `Text.LowerOfLowerCase` | main.py:157 | lower-casing text that is already lower case changes nothing |
| `Text.FindFrom` | main.py:124 | the result is the first index at or after `from` where the pattern occurs, or none when it occurs nowhere from there |
| `Text.Contains` | main.py:133 | Python's `in` holds exactly when the pattern occurs at some index |
| `Text.ReplaceAll` | main.py:125 | a string without the pattern is unchanged; a replacement no longer than the pattern never lengthens; lower-case input stays lower case |
| `Text.ReplaceAtFirst` | main.py:125 | at the first occurrence of the pattern: the text before it is kept, the occurrence becomes the replacement, and the rest is replaced in turn |
| `Text.ReplaceFirst` | main.py:125 | the same, for text written as prefix, pattern, rest, when no occurrence starts inside the prefix |
| `Text.ReplaceLeading` | main.py:125 | a leading occurrence is replaced and the scan resumes right after it |
| `Text.ReplaceAfterPlainPrefix` | main.py:125 | text that cannot start an occurrence is copied unchanged and replacement continues after it |
| `Text.LeadingSpaces` | main.py:125 | the count is the length of the maximal run of white space at the start |
| `Text.TrailingSpaces` | main.py:125 | the count is the length of the maximal run of white space at the end |
| `Text.Strip` | main.py:130 | the result neither begins nor ends with white space, is no longer than the input, and keeps lower case |
| `Text.StripRemovesOnlySpace` | main.py:109 | the input is white space, then the stripped text, then white space |
| `Text.StripFrame` | main.py:125 | a trimmed string between two runs of white space is exactly what strip returns (with the previous row, a full characterisation) |
| `Text.StripIdempotent` | main.py:130 | stripping twice is stripping once |
| `Text.SplitOnce` | main.py:130 | `split(sep, 1)` gives one part iff `sep` does not occur; otherwise the parts around its first occurrence, which rebuild the input |
| `Text.SplitAtPrefix` | main.py:129-130 | when the text starts with `"play"`, the second part is everything after that prefix |
| `Text.NatToString` | main.py:76 | a non-empty string of decimal digits without a leading zero; 0 is written `0` |
| `Text.DecimalRoundTrip` | main.py:76 | the digits written for the headline number denote that number |
| `Services.Requests` | main.py:119-140 | the service requests of a trace: only requests, and every request of the trace |
| `Services.RequestsOfOne` | main.py:119-140 | one effect contributes itself when it is a request and nothing otherwise |
| `Services.RequestsAppend` | main.py:136-139 | the requests of two traces run one after the other are those of the first, then those of the second (with the previous row: the requests in trace order) |
| `News.EntryReadsBack` | main.py:76 | an entry is `Headline `, then the decimal digits that denote its number, then `: `, then the headline verbatim and `. ` |
| `News.NewsUtterance` | main.py:72-76 | the utterance starts with the fixed introduction and is longer than it iff there is a headline |
| `News.BodySnoc` | main.py:74-76 | appending a headline appends its entry, numbered after the others |
| `News.BodyAppend` | main.py:74-76 | two lists read out one after the other number the second after the first |
| `News.BodySplit` | main.py:74-76 | the headline at position k is read out as entry `first + k`, after all earlier and before all later ones |
| `News.UtterancePrefix` | main.py:72-76 | reading out one more headline appends its entry, numbered after the others |
| `News.UtteranceOfFive` | main.py:72-76 | five headlines are read as the introduction and entries 1 to 5, in order |
| `News.BuildNewsText` | main.py:72-76 | the loop's text is the fixed introduction followed by one `Headline i: title. ` entry per headline, numbered from 1 |
| `News.Titles` | main.py:69 | titles exist iff every article has one; they are the articles' titles in order |
| `News.TopArticles` | main.py:62 | the first five articles, or all of them when there are fewer, in order |
| `News.NewsSpeech` | main.py:50-84 | "couldn't fetch news" iff status present and not (`"ok"` with articles); "no articles" iff `"ok"` with an empty list; "error occurred" iff fetch failed, status missing, or a kept article lacks a title |
| `News.ApologiesAreNotHeadlines` | main.py:65 | a read-out of headlines is none of the three apologies, and those differ from each other |
| `News.FiveHeadlines` | main.py:61-78 | with five or more titled articles, exactly the first five are read out, in order, numbered 1 to 5, after the fixed introduction |
| `News.FewerHeadlines` | main.py:62-78 | with one to four titled articles, all are read out under the same fixed "top 5" introduction |
| `Commands.Classify` | main.py:119-140 | first match wins: open iff `"open "` occurs; play iff not that and the text starts with `"play"`; news iff neither and the news phrase occurs; otherwise the unmodified command is the question. The site is the lower-cased command with every `"open "` removed, stripped; the song is the lower-cased command after `"play"`, stripped; both are trimmed and lower case |
| `Commands.SiteAddress` | main.py:126 | the address is `https://www.`, the site name verbatim, then `.com` |
| `Commands.VideoAddress` | main.py:93 | the address is the watch prefix, the first result's video id verbatim, then `&autoplay=1` |
| `Commands.PlaySongEffects` | main.py:88-101 | exactly one search, made first; a failed search says only the error apology; no results says only "couldn't find that song"; otherwise the first result is opened with autoplay, then "Playing <song>." and the waiting prompt are spoken |
| `Commands.AskGeminiEffects` | main.py:105-115 | exactly one request, made first; an answer is spoken stripped, then the waiting prompt; a failure speaks only the apology |
| `Commands.Perform` | main.py:124-140 | every branch ends by speaking; only opening a site or playing a song navigates the browser (what each branch does is stated per command by the four rows from `Commands.OpenCommandEffects` on) |
| `Commands.ProcessCommand` | main.py:119-140 | always reports the command handled; every branch ends by speaking |
| `Commands.OpenCommandEffects` | main.py:124-127 | any command containing `"open "` opens `https://www.<site>.com`, with the site named as in `Classify`, and says `<site> is now open. Waiting for your next command.`; nothing else happens |
| `Commands.PlayCommandEffects` | main.py:129-131 | a command starting with `"play"` and without `"open "` does exactly what `play_song` does for the stripped text after `"play"` |
| `Commands.NewsCommandEffects` | main.py:133-134 | a command that only the news test takes fetches the headlines once and speaks exactly `get_news`'s one utterance |
| `Commands.FallbackForwardsCommand` | main.py:136-139 | a command no other test takes is announced with "Let me check that for you."; then exactly what `ask_gemini` does for the unchanged command follows |
| `Commands.PerformRequests` | main.py:124-140 | carrying out an intent makes one service request, none when opening a site |
| `Commands.OneRequestPerCommand` | main.py:124-140 | each command makes exactly one service request, except opening a site, which makes none |
| `Commands.OpenSiteName` | main.py:122-125 | for any command: the site is the lower-cased text before the first `"open "`, then the rest with every `"open "` removed, all stripped |
| `Commands.OpenFollowsPlainText` | main.py:124-125 | `"open "` cannot overlap itself, so after text without it the first occurrence is the one that follows that text |
| `Commands.OpenKeepsEarlierWords` | main.py:124-125 | for lower-case words without `"open "` before it: those words are kept and every later `"open "` is removed |
| `Commands.OpenAfterWords` | main.py:124-125 | plain words, `"open "`, a plain site: the site name is the words joined to the site (`"please open github"` names `please github`) |
| `Commands.DropLeadingOpen` | main.py:125 | removing `"open "` from `"open <site>"` leaves the plain site |
| `Commands.OpenOpen` | main.py:124-125 | `"open open <site>"` opens `<site>`: both occurrences are removed |
| `Commands.OpenPlainSite` | main.py:124-128 | `open <site>` with a plain trimmed site name opens `https://www.<site>.com` and says `<site> is now open. Waiting for your next command.` |
| `Commands.OpenGitHub` | main.py:124-128 | `"open github"` in any casing opens `https://www.github.com` and announces it |
| `Commands.OpenGitHubLowerCase` | main.py:122-127 | `"open github"` as heard opens `https://www.github.com` |
| `Commands.OpenGitHubCapitalised` | main.py:122-127 | `"Open GitHub"` opens `https://www.github.com` |
| `Commands.PlayPlainSong` | main.py:129-131 | a command starting with `"play"`, without `"open "`, plays the trimmed rest |
| `Commands.PlaygroundIsPlay` | main.py:129-130 | `"play"` is a bare prefix: `"Playground"` plays `"ground"` |
| `Commands.NewsCommand` | main.py:133-134 | the news phrase fetches the headlines once and speaks one utterance |
| `Dialogue.WakeNamesJarvis` | main.py:157 | a wake phrase has `jarvis` at the start or right after `hey `; `jarvis` at the start always wakes |
| `Dialogue.Transition` | main.py:148-180 | while waiting, command mode is entered iff a wake phrase was heard; in command mode, it is kept iff speech was not recognised or the recogniser failed; a round that does anything ends by speaking |
| `Dialogue.TransitionRequests` | main.py:148-180 | a round asks a service at most once, and never while waiting for the wake phrase |
| `Dialogue.Replay` | main.py:148-174 | no captures leave mode and trace as they were; a run that does anything ends by speaking |
| `Dialogue.ReplayRequests` | main.py:148-174 | a run asks the services at most once per capture |
| `Dialogue.ReplayCons` | main.py:148-174 | a run starts with the round for its first capture |
| `Dialogue.ReplaySnoc` | main.py:148-174 | a run extended by one capture is the run followed by one more round |
| `Dialogue.ReplayPrefix` | main.py:148-174 | a run of the first i+1 captures is the run of the first i followed by one round |
| `Dialogue.WakeGate` | main.py:157-160 | from waiting, command mode is entered iff a wake phrase was heard, and exactly then the one acknowledgement is spoken |
| `Dialogue.WakeExamples` | main.py:157 | `"Hey Jarvis what time"`, `"jarvis open youtube"` and `"Jarvis"` wake the assistant; `"hey there"` does not |
| `Dialogue.SilentUntilWoken` | main.py:148-157 | any run without a wake phrase leaves the assistant waiting and silent |
| `Dialogue.CommandEndsConversation` | main.py:166-170 | a recognised command is carried out and always leads back to waiting for the wake phrase |
| `Dialogue.CommandModeFailures` | main.py:164-180 | unrecognised speech is reprompted once and keeps command mode; other recogniser errors keep it silently; a failed listen returns to waiting |
| `Dialogue.RepeatedUnintelligible` | main.py:171-172 | n unrecognised captures in command mode keep command mode and speak exactly n reprompts |
| `Dialogue.WakeThenCommand` | main.py:157-170 | a wake phrase, then a recognised command: the acknowledgement, then exactly the command's effects, and back to waiting |
| `Dialogue.JarvisOpenGitHub` | main.py:157-170 | `"Jarvis"` then `"open github"`: acknowledgement, `https://www.github.com` opened and announced, back to waiting |
| `Dialogue.Assistant.constructor` | main.py:146 | starts waiting for the wake phrase, having said "Initializing Jarvis..." |
| `Dialogue.Assistant.Say` | main.py:44-47 | speaking appends exactly that utterance to the trace |
| `Dialogue.Assistant.Step` | main.py:148-180 | the new mode and the appended effects are those of one round of the loop the old mode names |
| `Dialogue.Assistant.Run` | main.py:148-180 | after a finite sequence of captures, mode and trace are those of the replay of that sequence |

## Left out

- Speech capture and recognition: the microphone, noise calibration, `listen` and `recognize_google` (`main.py:150-154`, `161-166`). Each round's outcome is an input `Capture`.
- The recogniser tunables and listen time limits (`main.py:29-34`, `153`): floating-point timing values with no logical content.
- The text-to-speech engine (`main.py:26`, `44-47`): speaking is an appended `Speak` effect.
- The HTTP request and JSON decoding, the video search and the language model (`main.py:39-40`, `55-56`, `91`, `108`): foreign services, whose answers are inputs.
  - `FetchFailed` stands for any exception raised before the status is read, including an answer that is not a JSON object.
  - A non-list `articles` value is not modelled.
  - A title that is present but not a string is not modelled. Python would format it, for example as `None`.
  - A `"status"` that is present but JSON `null` is not representable: the model's status is an optional string. Python compares `None` with `"ok"`, finds them different, and says "Sorry, I couldn't fetch news." (`main.py:61`, `80`), the same answer as for any status other than `"ok"`.
- Environment and key loading (`main.py:19`, `37-38`), the `webbrowser.open` primitive itself, and all `print` logging.
- A microphone failure while waiting for the wake phrase (`main.py:150-151`, outside any `try`) ends the process. The model has no terminated state.
- `speak` or `webbrowser.open` raising is not modelled.
  - In the open branch, such an exception would leave `processCommand` and be logged by the inner handler, keeping command mode.
  - Inside the `try` blocks of the three handlers, it would be caught by their own handlers.
  - The apologies spoken in their `except` clauses (`main.py:83`, `100`, `115`) are outside those handlers. A raise there would leave the handler and be caught at `main.py:173`, keeping command mode.
  - The reprompt at `main.py:172` is itself in an `except` clause. A raise there would escape the inner loop, be caught at `main.py:179`, and return the assistant to waiting for the wake phrase.
  - In the fallback branch, `speak("Let me check that for you.")` (`main.py:138`) runs outside `ask_gemini`'s handler. If it raised, the handler at `main.py:173` would catch it: the language model would not be asked, and command mode would be kept.
- The endless outer loop: runs are finite sequences of captures.
- `Text.Lower`: does not model Python's full Unicode case mapping, because only ASCII letters are folded. Non-ASCII capitals are left unchanged.
- `Text.ReplaceAll`: requires a non-empty pattern, because Python's behaviour for an empty pattern (inserting the replacement between every character) is never used here.
- `Text.SplitOnce`: requires a non-empty separator, for which Python's `split` raises; the only separator used is `"play"`.
