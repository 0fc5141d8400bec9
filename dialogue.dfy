/**
 * The listening loop of the assistant's main program: two nested endless
 * loops, the outer one waiting for the wake phrase and the inner one for a
 * command. Here the loop nest is a two-mode machine driven by one capture
 * outcome per iteration; a run is a finite sequence of such outcomes.
 */
module Dialogue {
  import opened Text
  import opened Services
  import Commands

  const Greeting := "Initializing Jarvis..."
  const Acknowledgement := "Yes, how may I assist you?"
  const Reprompt := "I didn't catch that. Could you please repeat?"

  /** Which of the two loops is running. */
  datatype Mode = AwaitingWake | AwaitingCommand

  /** The outcome of one round of listening. */
  datatype Capture =
    | Heard(text: string, services: Replies)
      // recognised text, with what the services would answer to it
    | Unintelligible      // the recogniser raised `UnknownValueError`
    | RecognitionError    // the recogniser raised any other error
    | ListenFailed        // opening the microphone, calibrating or listening raised

  /** The wake test: the lower-cased text starts with `"hey jarvis"` or `"jarvis"`. */
  predicate IsWakePhrase(word: string) {
    StartsWith(Lower(word), "hey jarvis") || StartsWith(Lower(word), "jarvis")
  }

  /** The name itself wakes the assistant, and no wake phrase lacks it at the start or right after `"hey "`. */
  lemma {:induction false} WakeNamesJarvis(word: string)
    ensures IsWakePhrase(word) ==> OccursAt(Lower(word), "jarvis", 0) || OccursAt(Lower(word), "jarvis", 4)
    ensures OccursAt(Lower(word), "jarvis", 0) ==> IsWakePhrase(word)
  {
    var lower := Lower(word);
    if StartsWith(lower, "hey jarvis") {
      assert lower[4..10] == "hey jarvis"[4..];
    }
  }

  /** The mode after one round, and what the round did. */
  datatype Move = Move(next: Mode, effects: seq<Effect>)

  /**
   * One round of whichever loop `mode` names. Command mode is entered only by
   * a wake phrase and kept only by speech that was not recognised; a round
   * that does anything ends by speaking.
   */
  function Transition(mode: Mode, capture: Capture): (move: Move)
    ensures mode == AwaitingWake
        ==> (move.next == AwaitingCommand <==> capture.Heard? && IsWakePhrase(capture.text))
    ensures mode == AwaitingCommand
        ==> (move.next == AwaitingCommand <==> capture.Unintelligible? || capture.RecognitionError?)
    ensures move.effects != [] ==> move.effects[|move.effects| - 1].Speak?
  {
    match mode
    case AwaitingWake =>
      if capture.Heard? && IsWakePhrase(capture.text) then Move(AwaitingCommand, [Speak(Acknowledgement)])
      else Move(AwaitingWake, [])
    case AwaitingCommand =>
      match capture
      case Heard(command, services) =>
        var outcome := Commands.ProcessCommand(command, services);
        Move(if outcome.handled then AwaitingWake else AwaitingCommand, outcome.effects)
      case Unintelligible => Move(AwaitingCommand, [Speak(Reprompt)])
      case RecognitionError => Move(AwaitingCommand, [])
      case ListenFailed => Move(AwaitingWake, [])
  }

  /**
   * The rounds for `captures`, one after the other, from `mode`. A run that
   * does anything ends by speaking.
   */
  function Replay(mode: Mode, captures: seq<Capture>): (move: Move)
    ensures captures == [] ==> move == Move(mode, [])
    ensures move.effects != [] ==> move.effects[|move.effects| - 1].Speak?
    decreases |captures|
  {
    if captures == [] then Move(mode, [])
    else
      var first := Transition(mode, captures[0]);
      var rest := Replay(first.next, captures[1..]);
      LastOfAppend(first.effects, rest.effects);
      Move(rest.next, first.effects + rest.effects)
  }

  /** The last effect of two traces run one after the other. */
  lemma LastOfAppend(a: seq<Effect>, b: seq<Effect>)
    ensures b == [] ==> a + b == a
    ensures b != [] ==> (a + b)[|a + b| - 1] == b[|b| - 1]
  {
  }

  lemma AppendAssoc(a: seq<Effect>, b: seq<Effect>, c: seq<Effect>)
    ensures (a + b) + c == a + (b + c)
  {
  }

  /** A replay starts with the round for its first capture. */
  lemma {:induction false} ReplayCons(mode: Mode, first: Capture, captures: seq<Capture>)
    ensures Replay(mode, [first] + captures)
         == Move(Replay(Transition(mode, first).next, captures).next,
                 Transition(mode, first).effects + Replay(Transition(mode, first).next, captures).effects)
  {
    assert ([first] + captures)[0] == first;
    assert ([first] + captures)[1..] == captures;
  }

  /** A round asks a service at most once: only a recognised command does. */
  lemma {:induction false} TransitionRequests(mode: Mode, capture: Capture)
    ensures |Requests(Transition(mode, capture).effects)| <= 1
    ensures mode == AwaitingWake ==> Requests(Transition(mode, capture).effects) == []
  {
    match mode
    case AwaitingWake =>
      RequestsOfOne(Speak(Acknowledgement));
    case AwaitingCommand =>
      match capture
      case Heard(command, services) =>
        Commands.OneRequestPerCommand(command, services);
      case Unintelligible =>
        RequestsOfOne(Speak(Reprompt));
      case RecognitionError =>
      case ListenFailed =>
  }

  /** A run asks the services at most once per capture. */
  lemma {:induction false} ReplayRequests(mode: Mode, captures: seq<Capture>)
    ensures |Requests(Replay(mode, captures).effects)| <= |captures|
    decreases |captures|
  {
    if captures != [] {
      var first := Transition(mode, captures[0]);
      TransitionRequests(mode, captures[0]);
      ReplayRequests(first.next, captures[1..]);
      RequestsAppend(first.effects, Replay(first.next, captures[1..]).effects);
    }
  }

  /** One more round extends a replay by that round. */
  lemma {:induction false} ReplaySnoc(mode: Mode, captures: seq<Capture>, last: Capture)
    ensures Replay(mode, captures + [last]).next
         == Transition(Replay(mode, captures).next, last).next
    ensures Replay(mode, captures + [last]).effects
         == Replay(mode, captures).effects + Transition(Replay(mode, captures).next, last).effects
    decreases |captures|
  {
    if captures == [] {
      assert captures + [last] == [last];
    } else {
      var first := Transition(mode, captures[0]);
      var tail := captures[1..];
      assert (captures + [last])[0] == captures[0];
      assert (captures + [last])[1..] == tail + [last];
      ReplaySnoc(first.next, tail, last);
      var rest := Replay(first.next, tail);
      AppendAssoc(first.effects, rest.effects, Transition(rest.next, last).effects);
    }
  }

  /** The replay of a longer prefix is the replay of the shorter one followed by one more round. */
  lemma ReplayPrefix(mode: Mode, captures: seq<Capture>, i: nat)
    requires i < |captures|
    ensures Replay(mode, captures[..i + 1]).next
         == Transition(Replay(mode, captures[..i]).next, captures[i]).next
    ensures Replay(mode, captures[..i + 1]).effects
         == Replay(mode, captures[..i]).effects + Transition(Replay(mode, captures[..i]).next, captures[i]).effects
  {
    assert captures[..i + 1] == captures[..i] + [captures[i]];
    ReplaySnoc(mode, captures[..i], captures[i]);
  }

  /** The wake gate: only a wake phrase enters command mode, and it is acknowledged exactly once. */
  lemma WakeGate(capture: Capture)
    ensures Transition(AwaitingWake, capture).next == AwaitingCommand
        <==> capture.Heard? && IsWakePhrase(capture.text)
    ensures Transition(AwaitingWake, capture).effects
         == if capture.Heard? && IsWakePhrase(capture.text) then [Speak(Acknowledgement)] else []
  {
  }

  /** Either form of the wake phrase, in any case, wakes the assistant; other greetings do not. */
  lemma WakeExamples()
    ensures IsWakePhrase("Hey Jarvis what time")
    ensures IsWakePhrase("jarvis open youtube")
    ensures !IsWakePhrase("hey there")
    ensures IsWakePhrase("Jarvis")
  {
    assert Lower("Jarvis") == "jarvis";
    assert Lower("Hey Jarvis what time")[..10] == "hey jarvis";
    assert Lower("jarvis open youtube")[..6] == "jarvis";
    assert Lower("hey there")[4] != "hey jarvis"[4];
    assert Lower("hey there")[0] != "jarvis"[0];
  }

  /** Nothing but a wake phrase is acted on while waiting: the assistant stays silent and waiting. */
  lemma {:induction false} SilentUntilWoken(captures: seq<Capture>)
    requires forall k :: 0 <= k < |captures| ==> !(captures[k].Heard? && IsWakePhrase(captures[k].text))
    ensures Replay(AwaitingWake, captures) == Move(AwaitingWake, [])
    decreases |captures|
  {
    if captures != [] {
      SilentUntilWoken(captures[1..]);
    }
  }

  /** A recognised command is always handled, so the assistant goes back to waiting for the wake phrase. */
  lemma CommandEndsConversation(command: string, services: Replies)
    ensures Transition(AwaitingCommand, Heard(command, services))
         == Move(AwaitingWake, Commands.ProcessCommand(command, services).effects)
  {
  }

  /** In command mode, unrecognised speech is reprompted once and other recogniser errors pass silently; a failed listen ends command mode. */
  lemma CommandModeFailures()
    ensures Transition(AwaitingCommand, Unintelligible) == Move(AwaitingCommand, [Speak(Reprompt)])
    ensures Transition(AwaitingCommand, RecognitionError) == Move(AwaitingCommand, [])
    ensures Transition(AwaitingCommand, ListenFailed) == Move(AwaitingWake, [])
  {
  }

  /** `n` copies of `x`. */
  function Repeat<T>(x: T, n: nat): (r: seq<T>)
    ensures |r| == n && forall k :: 0 <= k < n ==> r[k] == x
  {
    if n == 0 then [] else [x] + Repeat(x, n - 1)
  }

  /** However often speech is not understood in command mode, the mode stays and each failure is reprompted exactly once. */
  lemma {:induction false} RepeatedUnintelligible(n: nat)
    ensures Replay(AwaitingCommand, Repeat(Unintelligible, n))
         == Move(AwaitingCommand, Repeat(Speak(Reprompt), n))
  {
    if n > 0 {
      var tail := Repeat(Unintelligible, n - 1);
      assert Repeat(Unintelligible, n) == [Unintelligible] + tail;
      assert Transition(AwaitingCommand, Unintelligible) == Move(AwaitingCommand, [Speak(Reprompt)]);
      ReplayCons(AwaitingCommand, Unintelligible, tail);
      RepeatedUnintelligible(n - 1);
      assert Repeat(Speak(Reprompt), n) == [Speak(Reprompt)] + Repeat(Speak(Reprompt), n - 1);
    }
  }

  /** A wake phrase followed by a recognised command: acknowledged, carried out, back to waiting. */
  lemma {:induction false} WakeThenCommand(wake: string, command: string, services: Replies)
    requires IsWakePhrase(wake)
    ensures Replay(AwaitingWake, [Heard(wake, services), Heard(command, services)])
         == Move(AwaitingWake, [Speak(Acknowledgement)] + Commands.ProcessCommand(command, services).effects)
  {
    var first, second := Heard(wake, services), Heard(command, services);
    assert [first, second] == [first] + [second];
    ReplayCons(AwaitingWake, first, [second]);
    assert [second] == [second] + [];
    ReplayCons(AwaitingCommand, second, []);
    var done := Commands.ProcessCommand(command, services).effects;
    assert done + [] == done;
  }

  /** `"Jarvis"` then `"open github"`: acknowledged, GitHub opened and announced, back to waiting. */
  lemma {:induction false} JarvisOpenGitHub(services: Replies)
    ensures Replay(AwaitingWake, [Heard("Jarvis", services), Heard("open github", services)])
         == Move(AwaitingWake,
                 [Speak(Acknowledgement), OpenUrl("https://www.github.com"),
                  Speak("github" + Commands.OpenedSuffix)])
  {
    WakeExamples();
    Commands.OpenGitHubLowerCase(services);
    WakeThenCommand("Jarvis", "open github", services);
  }

  /** The running assistant: the loop it is in and everything it has done so far. */
  class Assistant {
    var mode: Mode
    var trace: seq<Effect>

    /** Start-up: announce, then wait for the wake phrase. */
    constructor ()
      ensures mode == AwaitingWake && trace == [Speak(Greeting)]
    {
      mode := AwaitingWake;
      trace := [Speak(Greeting)];
    }

    /** `speak(text)`. */
    method Say(text: string)
      modifies this`trace
      ensures trace == old(trace) + [Speak(text)]
    {
      trace := trace + [Speak(text)];
    }

    /** One round of the loop that `mode` names, for the capture outcome `capture`. */
    method Step(capture: Capture)
      modifies this
      ensures mode == Transition(old(mode), capture).next
      ensures trace == old(trace) + Transition(old(mode), capture).effects
    {
      match capture
      case Heard(text, services) =>
        if mode == AwaitingWake {
          if IsWakePhrase(text) {
            Say(Acknowledgement);
            mode := AwaitingCommand;
          }
        } else {
          var outcome := Commands.ProcessCommand(text, services);
          trace := trace + outcome.effects;
          if outcome.handled {
            mode := AwaitingWake;
          }
        }
      case Unintelligible =>
        if mode == AwaitingCommand {
          Say(Reprompt);
        }
      case RecognitionError =>
      case ListenFailed =>
        mode := AwaitingWake;
    }

    /** Rounds of listening for the capture outcomes `captures`, in order. */
    method Run(captures: seq<Capture>)
      modifies this
      ensures mode == Replay(old(mode), captures).next
      ensures trace == old(trace) + Replay(old(mode), captures).effects
    {
      ghost var mode0, trace0 := mode, trace;
      for i := 0 to |captures|
        invariant mode == Replay(mode0, captures[..i]).next
        invariant trace == trace0 + Replay(mode0, captures[..i]).effects
      {
        ghost var done := Replay(mode0, captures[..i]).effects;
        ReplayPrefix(mode0, captures, i);
        Step(captures[i]);
        AppendAssoc(trace0, done, Transition(Replay(mode0, captures[..i]).next, captures[i]).effects);
      }
      assert captures[..|captures|] == captures;
    }
  }
}
