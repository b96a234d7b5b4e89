/**
  Runtime configuration of the curator: the `Settings` record with its
  defaults and the three derived feature switches.
 */
module Config {
  import opened Wrappers

  /** One settings object. Optional string fields are `None` when unset;
      `plexUrl` is a validated URL, which is never the empty string. */
  datatype Settings = Settings(
    apiAuthToken: string,
    plexUrl: Option<string>,
    plexToken: Option<string>,
    plexLibraryName: string,
    openaiApiKey: Option<string>,
    openaiModel: string,
    openaiAssistantName: string,
    enableTelegram: bool,
    enablePlexPlaylist: bool,
    telegramBotToken: Option<string>,
    telegramChatId: Option<string>,
    useSampleData: bool,
    sampleDataPath: string)

  /** Python truthiness of an `Optional[str]`: set and not empty. */
  predicate IsSet(o: Option<string>) {
    o.Some? && o.value != ""
  }

  /** The settings built from the environment when only the required
      `api_auth_token` is given. */
  function DefaultSettings(apiAuthToken: string): (s: Settings)
    ensures s.apiAuthToken == apiAuthToken
    ensures s.plexUrl == None && s.plexToken == None
    ensures s.openaiApiKey == None
    ensures s.telegramBotToken == None && s.telegramChatId == None
    ensures !s.enableTelegram && !s.enablePlexPlaylist && !s.useSampleData
  {
    Settings(
      apiAuthToken := apiAuthToken,
      plexUrl := None,
      plexToken := None,
      plexLibraryName := "Movies",
      openaiApiKey := None,
      openaiModel := "gpt-4o",
      openaiAssistantName := "Plex AI Curator",
      enableTelegram := false,
      enablePlexPlaylist := false,
      telegramBotToken := None,
      telegramChatId := None,
      useSampleData := false,
      sampleDataPath := "samples/movies_library.json")
  }

  /** `has_openai`: an API key is configured. */
  predicate HasOpenai(s: Settings)
    ensures HasOpenai(s) <==> s.openaiApiKey.Some? && |s.openaiApiKey.value| > 0
  {
    IsSet(s.openaiApiKey)
  }

  /** `has_telegram`: the switch is on and both the bot token and the chat
      are configured. */
  predicate HasTelegram(s: Settings)
    ensures HasTelegram(s) ==> s.enableTelegram
    ensures HasTelegram(s) <==>
      s.enableTelegram
      && s.telegramBotToken.Some? && |s.telegramBotToken.value| > 0
      && s.telegramChatId.Some? && |s.telegramChatId.value| > 0
  {
    s.enableTelegram && IsSet(s.telegramBotToken) && IsSet(s.telegramChatId)
  }

  /** `should_use_sample`: sample data when asked for, or when the Plex URL or
      token is missing. */
  predicate ShouldUseSample(s: Settings)
    ensures ShouldUseSample(s) <==>
      s.useSampleData || s.plexUrl.None? || s.plexToken.None? || s.plexToken.value == ""
  {
    s.useSampleData || !(s.plexUrl.Some? && IsSet(s.plexToken))
  }

  /** What the defaults switch on and off: no OpenAI, no Telegram, no
      playlist, and sample data because no Plex credentials are set. */
  lemma {:induction false} DefaultFeatureSwitches(apiAuthToken: string)
    ensures var s := DefaultSettings(apiAuthToken);
      && s.plexLibraryName == "Movies"
      && s.openaiModel == "gpt-4o"
      && s.openaiAssistantName == "Plex AI Curator"
      && !HasOpenai(s) && !HasTelegram(s) && !s.enablePlexPlaylist
      && ShouldUseSample(s)
  {
  }

  /** Setting the Telegram credentials alone never enables Telegram while the
      switch keeps its default; and whatever else is set, sample data stays
      in use until both Plex credentials are. */
  lemma {:induction false} DefaultSwitchesWithCredentials(apiAuthToken: string, botToken: Option<string>,
                                       chatId: Option<string>, plexUrl: Option<string>)
    ensures var s := DefaultSettings(apiAuthToken).(telegramBotToken := botToken,
                                                    telegramChatId := chatId,
                                                    plexUrl := plexUrl);
      !HasTelegram(s) && ShouldUseSample(s)
  {
  }
}
