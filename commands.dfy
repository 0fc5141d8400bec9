/**
 * The command dispatcher (`processCommand`) and the two action handlers it
 * calls besides the news: playing a song (`play_song`) and asking the
 * language model (`ask_gemini`).
 *
 * A command is classified by four ordered tests on its lower-cased text,
 * the first that holds winning; the matching action's effects are its
 * service request, its browser navigation and its speech.
 */
module Commands {
  import opened Text
  import opened Services
  import News

  const OpenKeyword := "open "
  const PlayKeyword := "play"
  const NewsRequest := "what's today's news"

  const OpenedSuffix := " is now open. Waiting for your next command."
  const WaitingPrompt := "Waiting for your next command."
  const SongNotFound := "Sorry, I couldn't find that song."
  const SongFailure := "An error occurred while playing the song."
  const Checking := "Let me check that for you."
  const AskFailure := "Sorry, I couldn't process your request."

  /** What a command asks for, with the argument its branch derives. */
  datatype Intent =
    | OpenSite(website: string)
    | PlaySong(song: string)
    | ReadNews
    | AskGemini(question: string)

  /**
   * The branch `processCommand` takes. The tests apply in order to the
   * lower-cased command: `"open "` anywhere, then `"play"` as a prefix, then
   * `"what's today's news"` anywhere; anything else goes to the language model
   * unchanged.
   */
  function Classify(command: string): (intent: Intent)
    ensures intent.OpenSite? <==> Contains(Lower(command), OpenKeyword)
    ensures intent.PlaySong? <==>
      !Contains(Lower(command), OpenKeyword) && StartsWith(Lower(command), PlayKeyword)
    ensures intent.ReadNews? <==>
      !Contains(Lower(command), OpenKeyword) && !StartsWith(Lower(command), PlayKeyword) &&
      Contains(Lower(command), NewsRequest)
    ensures intent.AskGemini? ==> intent.question == command
    ensures intent.OpenSite? ==> intent.website == Strip(ReplaceAll(Lower(command), OpenKeyword, ""))
    ensures intent.OpenSite? ==> IsTrimmed(intent.website) && IsLowerCase(intent.website)
    ensures intent.PlaySong? ==> intent.song == Strip(Lower(command)[|PlayKeyword|..])
    ensures intent.PlaySong? ==> IsTrimmed(intent.song) && IsLowerCase(intent.song)
  {
    var lower := Lower(command);
    if Contains(lower, OpenKeyword) then OpenSite(Strip(ReplaceAll(lower, OpenKeyword, "")))
    else if StartsWith(lower, PlayKeyword) then
      SplitAtPrefix(lower, PlayKeyword);
      PlaySong(Strip(SplitOnce(lower, PlayKeyword)[1]))
    else if Contains(lower, NewsRequest) then ReadNews
    else AskGemini(command)
  }

  const SitePrefix := "https://www."
  const SiteSuffix := ".com"
  const VideoPrefix := "https://www.youtube.com/watch?v="
  const VideoSuffix := "&autoplay=1"

  /** The address opened for a website name. */
  function SiteUrl(website: string): string {
    SitePrefix + website + SiteSuffix
  }

  /** The site name can be read back from the address between its fixed prefix and suffix. */
  lemma {:induction false} SiteAddress(website: string)
    ensures var url := SiteUrl(website);
      |url| == |SitePrefix| + |website| + |SiteSuffix| &&
      StartsWith(url, SitePrefix) &&
      url[|SitePrefix|..|url| - |SiteSuffix|] == website &&
      url[|url| - |SiteSuffix|..] == SiteSuffix
  {
    var url := SiteUrl(website);
    assert url == SitePrefix + (website + SiteSuffix);
  }

  /** The address that plays a video at once. */
  function VideoUrl(videoId: string): string {
    VideoPrefix + videoId + VideoSuffix
  }

  /** The video id can be read back from the address, which always asks for autoplay. */
  lemma {:induction false} VideoAddress(videoId: string)
    ensures var url := VideoUrl(videoId);
      |url| == |VideoPrefix| + |videoId| + |VideoSuffix| &&
      StartsWith(url, VideoPrefix) &&
      url[|VideoPrefix|..|url| - |VideoSuffix|] == videoId &&
      url[|url| - |VideoSuffix|..] == VideoSuffix
  {
    var url := VideoUrl(videoId);
    assert url == VideoPrefix + (videoId + VideoSuffix);
  }

  /** `play_song(song)`: search once, then open the first result or apologise. */
  function PlaySongEffects(song: string, reply: SearchReply): (effects: seq<Effect>)
    ensures |effects| >= 2 && effects[0] == SearchSong(song) && effects[|effects| - 1].Speak?
    ensures Requests(effects) == [SearchSong(song)]
    ensures forall e :: e in effects && e.OpenUrl? ==>
      reply.SearchResults? && reply.videoIds != [] && e == OpenUrl(VideoUrl(reply.videoIds[0]))
    ensures reply.SearchFailed? ==> effects[1..] == [Speak(SongFailure)]
    ensures reply == SearchResults([]) ==> effects[1..] == [Speak(SongNotFound)]
    ensures reply.SearchResults? && reply.videoIds != [] ==>
      effects[1..] == [OpenUrl(VideoUrl(reply.videoIds[0])), Speak("Playing " + song + "."), Speak(WaitingPrompt)]
  {
    var outcome :=
      match reply
      case SearchFailed => [Speak(SongFailure)]
      case SearchResults(ids) =>
        if ids == [] then [Speak(SongNotFound)]
        else [OpenUrl(VideoUrl(ids[0])), Speak("Playing " + song + "."), Speak(WaitingPrompt)];
    NoRequests(outcome);
    RequestsAppend([SearchSong(song)], outcome);
    var effects := [SearchSong(song)] + outcome;
    assert effects[1..] == outcome;
    effects
  }

  /** `ask_gemini(question)`: ask once, then speak the trimmed answer or apologise. */
  function AskGeminiEffects(question: string, reply: AnswerReply): (effects: seq<Effect>)
    ensures |effects| >= 2 && effects[0] == AskAI(question) && effects[|effects| - 1].Speak?
    ensures Requests(effects) == [AskAI(question)]
    ensures reply.Answer? ==> effects[1..] == [Speak(Strip(reply.text)), Speak(WaitingPrompt)]
    ensures reply.Answer? ==> IsTrimmed(effects[1].text)
    ensures reply.AnswerFailed? ==> effects[1..] == [Speak(AskFailure)]
  {
    var outcome :=
      match reply
      case AnswerFailed => [Speak(AskFailure)]
      case Answer(text) => [Speak(Strip(text)), Speak(WaitingPrompt)];
    NoRequests(outcome);
    RequestsAppend([AskAI(question)], outcome);
    var effects := [AskAI(question)] + outcome;
    assert effects[1..] == outcome;
    effects
  }

  /**
   * The effects of carrying out `intent`: they always end by speaking, and only
   * opening a site or playing a song navigates the browser.
   */
  function Perform(intent: Intent, services: Replies): (effects: seq<Effect>)
    ensures effects != [] && effects[|effects| - 1].Speak?
    ensures forall e :: e in effects && e.OpenUrl? ==> intent.OpenSite? || intent.PlaySong?
  {
    match intent
    case OpenSite(website) => [OpenUrl(SiteUrl(website)), Speak(website + OpenedSuffix)]
    case PlaySong(song) => PlaySongEffects(song, services.videos)
    case ReadNews => [FetchNews, Speak(News.NewsSpeech(services.news))]
    case AskGemini(question) =>
      var asked := AskGeminiEffects(question, services.answer);
      assert forall e :: e in asked ==> !e.OpenUrl? by {
        assert asked == [asked[0]] + asked[1..];
      }
      [Speak(Checking)] + asked
  }

  /** What `processCommand` returns, and what it did on the way. */
  datatype Outcome = Outcome(handled: bool, effects: seq<Effect>)

  /**
   * `processCommand(command)`: classify, act, and report the command handled.
   * Every branch ends by speaking to the user.
   */
  function ProcessCommand(command: string, services: Replies): (r: Outcome)
    ensures r.handled
    ensures r.effects != [] && r.effects[|r.effects| - 1].Speak?
  {
    Outcome(true, Perform(Classify(command), services))
  }

  /** Carrying out an intent makes one service request, except opening a site, which makes none. */
  lemma {:induction false} PerformRequests(intent: Intent, services: Replies)
    ensures |Requests(Perform(intent, services))| == if intent.OpenSite? then 0 else 1
  {
    match intent
    case OpenSite(website) =>
      NoRequests(Perform(intent, services));
    case PlaySong(song) =>
    case ReadNews =>
      var spoken := [Speak(News.NewsSpeech(services.news))];
      NoRequests(spoken);
      RequestsAppend([FetchNews], spoken);
      assert Perform(intent, services) == [FetchNews] + spoken;
    case AskGemini(question) =>
      NoRequests([Speak(Checking)]);
      RequestsAppend([Speak(Checking)], AskGeminiEffects(question, services.answer));
  }

  /** Each command makes exactly one service request, except opening a site, which makes none. */
  lemma OneRequestPerCommand(command: string, services: Replies)
    ensures |Requests(ProcessCommand(command, services).effects)|
         == if Classify(command).OpenSite? then 0 else 1
  {
    PerformRequests(Classify(command), services);
  }

  /**
   * The site name of any open command: the lower-cased text before the first
   * `"open "`, followed by the rest with every further `"open "` removed, stripped.
   */
  lemma {:induction false} OpenSiteName(command: string, i: nat)
    requires OccursAt(Lower(command), OpenKeyword, i)
    requires forall j: nat :: j < i ==> !OccursAt(Lower(command), OpenKeyword, j)
    ensures Classify(command)
         == OpenSite(Strip(Lower(command)[..i] + ReplaceAll(Lower(command)[i + |OpenKeyword|..], OpenKeyword, "")))
  {
    var lower := Lower(command);
    assert Contains(lower, OpenKeyword);
    ReplaceAtFirst(lower, OpenKeyword, "", i);
    assert lower[..i] + "" == lower[..i];
  }

  /**
   * `"open "` cannot overlap itself: no proper prefix of it is also a suffix.
   * So when text without `"open "` is followed by `"open "`, the first
   * occurrence is the one that follows it.
   */
  lemma {:induction false} OpenFollowsPlainText(before: string, website: string)
    requires !Contains(before, OpenKeyword)
    ensures forall j: nat :: j < |before| ==> !OccursAt(before + OpenKeyword + website, OpenKeyword, j)
  {
    var command := before + OpenKeyword + website;
    forall j: nat | j < |before|
      ensures !OccursAt(command, OpenKeyword, j)
    {
      if j + |OpenKeyword| <= |before| {
        assert !OccursAt(before, OpenKeyword, j);
        assert command[j..j + |OpenKeyword|] == before[j..j + |OpenKeyword|];
      } else {
        var d := |before| - j;
        assert 0 < d < |OpenKeyword|;
        assert command[|before|] == 'o';
        assert OpenKeyword[d] != 'o';
        assert command[j..j + |OpenKeyword|][d] == command[|before|];
      }
    }
  }

  /**
   * Every `"open "` is removed wherever it stands, and the words before the
   * first one are kept: `"please open github"` opens `https://www.please github.com`.
   */
  lemma {:induction false} OpenKeepsEarlierWords(before: string, website: string)
    requires IsLowerCase(before) && IsLowerCase(website)
    requires !Contains(before, OpenKeyword)
    ensures Classify(before + OpenKeyword + website)
         == OpenSite(Strip(before + ReplaceAll(website, OpenKeyword, "")))
  {
    var command := before + OpenKeyword + website;
    assert Lower(command) == command by {
      assert IsLowerCase(command);
      LowerOfLowerCase(command);
    }
    OpenFollowsPlainText(before, website);
    assert command[|before|..|before| + |OpenKeyword|] == OpenKeyword;
    OpenSiteName(command, |before|);
    assert command[..|before|] == before;
    assert command[|before| + |OpenKeyword|..] == website;
  }

  /** `open <site>` opens `https://www.<site>.com` when the site name is plain. */
  lemma {:induction false} OpenPlainSite(command: string, website: string)
    requires Lower(command) == OpenKeyword + website
    requires !Contains(website, OpenKeyword) && IsTrimmed(website)
    ensures Classify(command) == OpenSite(website)
    ensures forall services :: (ProcessCommand(command, services).effects
         == [OpenUrl(SiteUrl(website)), Speak(website + OpenedSuffix)])
  {
    var lower := Lower(command);
    assert lower[..|OpenKeyword|] == OpenKeyword;
    ReplaceLeading(OpenKeyword, website, "");
    StripFrame([], website, []);
    assert [] + website + [] == website;
  }

  /** `"open github"`, in any casing, opens `https://www.github.com` and says so. */
  lemma {:induction false} OpenGitHub(command: string, services: Replies)
    requires Lower(command) == OpenKeyword + "github"
    ensures ProcessCommand(command, services).effects
         == [OpenUrl("https://www.github.com"), Speak("github" + OpenedSuffix)]
  {
    assert SiteUrl("github") == "https://www.github.com";
    MissingCharNotContained("github", OpenKeyword, 4);
    OpenPlainSite(command, "github");
  }

  /** Removing `"open "` from `"open <site>"` leaves the plain site name. */
  lemma {:induction false} DropLeadingOpen(website: string)
    requires !Contains(website, OpenKeyword)
    ensures ReplaceAll(OpenKeyword + website, OpenKeyword, "") == website
  {
    ReplaceLeading(OpenKeyword, website, "");
    assert "" + website == website;
  }

  /** With two leading `"open "`, both are removed: `"open open <site>"` opens `<site>`. */
  lemma {:induction false} OpenOpen(website: string)
    requires IsLowerCase(website) && IsTrimmed(website) && !Contains(website, OpenKeyword)
    ensures Classify(OpenKeyword + OpenKeyword + website) == OpenSite(website)
  {
    var rest := OpenKeyword + website;
    assert [] + OpenKeyword + rest == OpenKeyword + OpenKeyword + website;
    assert !Contains([], OpenKeyword);
    assert IsLowerCase(rest);
    OpenKeepsEarlierWords([], rest);
    DropLeadingOpen(website);
    assert Strip([] + website) == website by {
      StripFrame([], website, []);
      assert [] + website + [] == [] + website;
    }
  }

  /** Plain words before `"open "` and a plain site name after it are joined: both stay. */
  lemma {:induction false} OpenAfterWords(before: string, website: string)
    requires IsLowerCase(before) && IsLowerCase(website)
    requires !Contains(before, OpenKeyword) && !Contains(website, OpenKeyword)
    requires IsTrimmed(before + website)
    ensures Classify(before + OpenKeyword + website) == OpenSite(before + website)
  {
    OpenKeepsEarlierWords(before, website);
    StripFrame([], before + website, []);
    assert [] + (before + website) + [] == before + website;
  }

  /** `"open github"` as heard opens `https://www.github.com`. */
  lemma OpenGitHubLowerCase(services: Replies)
    ensures ProcessCommand("open github", services).effects
         == [OpenUrl("https://www.github.com"), Speak("github" + OpenedSuffix)]
  {
    assert Lower("open github") == OpenKeyword + "github";
    OpenGitHub("open github", services);
  }

  /** The tests read the lower-cased command: `"Open GitHub"` opens `https://www.github.com` too. */
  lemma OpenGitHubCapitalised(services: Replies)
    ensures ProcessCommand("Open GitHub", services).effects
         == [OpenUrl("https://www.github.com"), Speak("github" + OpenedSuffix)]
  {
    assert Lower("Open GitHub") == OpenKeyword + "github";
    OpenGitHub("Open GitHub", services);
  }

  /** A command that starts with `"play"` and has no `"open "` plays the trimmed rest. */
  lemma {:induction false} PlayPlainSong(command: string, song: string)
    requires Lower(command) == PlayKeyword + song
    requires !Contains(Lower(command), OpenKeyword) && IsTrimmed(song)
    ensures Classify(command) == PlaySong(song)
  {
    var lower := Lower(command);
    assert lower[..|PlayKeyword|] == PlayKeyword;
    assert lower[|PlayKeyword|..] == song;
    StripFrame([], song, []);
    assert [] + song + [] == song;
  }

  /** `"play"` is a bare prefix: `"Playground"` asks to play `"ground"`. */
  lemma {:induction false} PlaygroundIsPlay()
    ensures Classify("Playground") == PlaySong("ground")
  {
    assert Lower("Playground") == PlayKeyword + "ground";
    MissingCharNotContained(PlayKeyword + "ground", OpenKeyword, 4);
    assert IsTrimmed("ground");
    PlayPlainSong("Playground", "ground");
  }

  /**
   * Any open command opens `https://www.<site>.com` for the site name of
   * `Classify` and announces it; nothing else happens.
   */
  lemma OpenCommandEffects(command: string, services: Replies)
    requires Contains(Lower(command), OpenKeyword)
    ensures var site := Strip(ReplaceAll(Lower(command), OpenKeyword, ""));
      ProcessCommand(command, services).effects
        == [OpenUrl("https://www." + site + ".com"),
            Speak(site + " is now open. Waiting for your next command.")]
  {
  }

  /** A play command without `"open "` runs `play_song` on the stripped text after `"play"`. */
  lemma PlayCommandEffects(command: string, services: Replies)
    requires !Contains(Lower(command), OpenKeyword) && StartsWith(Lower(command), PlayKeyword)
    ensures ProcessCommand(command, services).effects
         == PlaySongEffects(Strip(Lower(command)[|PlayKeyword|..]), services.videos)
  {
  }

  /** A command that only the news test takes fetches the headlines once and speaks their one utterance. */
  lemma NewsCommandEffects(command: string, services: Replies)
    requires !Contains(Lower(command), OpenKeyword) && !StartsWith(Lower(command), PlayKeyword)
    requires Contains(Lower(command), NewsRequest)
    ensures ProcessCommand(command, services).effects == [FetchNews, Speak(News.NewsSpeech(services.news))]
  {
  }

  /**
   * A command that no other rule takes is announced and then sent to the
   * language model unchanged; what follows is exactly `ask_gemini`.
   */
  lemma FallbackForwardsCommand(command: string, services: Replies)
    requires !Contains(Lower(command), OpenKeyword) && !StartsWith(Lower(command), PlayKeyword)
    requires !Contains(Lower(command), NewsRequest)
    ensures ProcessCommand(command, services).effects[..2] == [Speak(Checking), AskAI(command)]
    ensures ProcessCommand(command, services).effects == [Speak(Checking)] + AskGeminiEffects(command, services.answer)
  {
  }

  /** `"what's today's news"` fetches the headlines once and speaks their one utterance. */
  lemma NewsCommand(services: Replies)
    ensures ProcessCommand("what's today's news", services).effects
         == [FetchNews, Speak(News.NewsSpeech(services.news))]
  {
    var c := "what's today's news";
    assert Lower(c) == c;
    MissingCharNotContained(c, OpenKeyword, 1);
    assert !StartsWith(c, PlayKeyword) by { assert c[0] != PlayKeyword[0]; }
    assert OccursAt(c, NewsRequest, 0);
  }
}
