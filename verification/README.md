# Plex AI Curator — a verified model of its deterministic core

Plex AI Curator (repository `dantebarba/quup`) reads a Plex movie library and
uploads it as a JSON dataset to an OpenAI assistant. It then sends the
assistant the user's recent watch history as prompt text and reads back a
list of recommended titles. With those titles it can fill a Plex playlist
and send a Telegram message. Every switch comes from a settings object built
from environment variables.

The recommending is done by the remote assistant. The source has no local
similarity scorer or ranking, and this model has none either. What the model
covers is the deterministic part around the remote calls:

- `Config` (`app/config.py`): the `Settings` record, its defaults and the
  three derived switches `has_openai`, `has_telegram` and `should_use_sample`.
- `Core` (`app/core.py`), split into four parts.
  - Flattening a Plex movie into the record the assistant gets
    (`_movie_to_dict`, and the per-movie mapping in `sync_library`).
  - The watch-history prompt text (`_build_history_context`, an imperative
    loop, modelled as a method).
  - The parser of the assistant's answer (`_parse_recommendations`, a method
    proved against the `Recommendations` function).
  - `create_playlist`, a method that works on a `PlexServer` object. The
    server's playlists are a mutable map, and its library search is a fixed
    lookup function.
- `Notifiers` (`app/notifiers.py`): the Telegram message text, the gating of
  `send_telegram_message` and the `create_or_update_playlist` stub.
- `Text` and `Wrappers`: the Python string operations the code relies on and
  `Optional`. The string operations are `str.strip`, `str.split` with one
  separator character, `str.join` and `f"{n}"` for integers.

`app/core.py` reads `settings.recommendation_count`, `settings.playlist_name`
and `settings.history_lookback`, but `Settings` declares none of them. The
model therefore takes the count and the playlist name as explicit
parameters. The history arrives already fetched.

The regular expression `^[\d\.\-\*\•]\s*` in `_parse_recommendations` removes
exactly ONE bullet or numbering character, plus the whitespace after it. So
`"1. Dune"` is cleaned to `". Dune"`, and `"12. Dune"` is cleaned to
`"2. Dune"`. The model keeps this behaviour, and `Core.CleanNumberedLine`
states it.

## Model

| member | source | states |
|---|---|---|
| Config.DefaultSettings | app/config.py:10-30 | Only `api_auth_token` is required. Every optional credential defaults to None, and the Telegram, playlist and sample-data switches default to off. |
| Config.HasOpenai | app/config.py:34-36 | True exactly when an OpenAI API key is set and is not empty. |
| Config.HasTelegram | app/config.py:38-40 | True exactly when the Telegram switch is on and both the bot token and the chat id are set and not empty. In particular it implies the switch is on. |
| Config.ShouldUseSample | app/config.py:42-45 | True exactly when sample data is asked for, or the Plex URL is missing, or the Plex token is missing or empty. |
| Config.DefaultFeatureSwitches | app/config.py:17-24 | The defaults: library "Movies", model "gpt-4o" and assistant "Plex AI Curator". With them there is no OpenAI, no Telegram and no playlist, and sample data is used. |
| Config.DefaultSwitchesWithCredentials | app/config.py:15-45 | While the switches keep their defaults, setting Telegram credentials never enables Telegram. Sample data stays in use while the Plex token is unset. |
| Core.TopRoles | app/core.py:53 | The kept roles are a prefix of the movie's roles, in order. There are at most three of them, and all roles are kept when there are fewer than three. |
| Core.TagText | app/core.py:58-61 | An empty tag list gives "Unknown", and a single tag is written as itself. |
| Core.MovieToRecord | app/core.py:41-65 | Title and ratingKey are copied unchanged. The status is Watched exactly when a view count is present and positive, so a missing count gives Unwatched. A present year, summary or rating is passed through unchanged. A missing year gives None, a missing summary gives "No plot available" and a missing rating gives 0.0. Non-empty directors, genres and top-three roles are their tags joined by ", ". An empty list gives "Unknown". |
| Core.TagTextListsTags | app/core.py:58-61 | A non-empty tag field holds every tag, in order, separated by ", ". Splitting it at the commas gives back the first tag, then each later tag with a leading blank. |
| Core.RecordIgnoresLaterRoles | app/core.py:44-53 | Roles after the third never change the record. Only the view count decides the status. |
| Core.LibraryDataset | app/core.py:83 | One record per library movie, in library order. The length is the reported `movies_count`. Record i is the `_movie_to_dict` record of movie i, so it carries that movie's title, ratingKey and watch status. |
| Core.YearText | app/core.py:289 | The year as `f"{year}"` prints it ("None" for a missing year). It never contains a line break. |
| Core.HistoryLine | app/core.py:288-290 | Each history line starts with "- ". |
| Core.BuildHistoryContext | app/core.py:283-292 | The context is the per-movie history lines joined by newlines. It is empty exactly when the history is empty. |
| Core.HistoryContextLines | app/core.py:285-292 | Movies whose titles and tags hold no line break give exactly one context line each, in history order. Each line starts with "- ", and there is no trailing newline. |
| Core.AnswerLines | app/core.py:317 | Splitting the trimmed answer at newlines always yields at least one line. |
| Core.CleanLine | app/core.py:322 | Cleaning never lengthens a line: the result is no longer than the trimmed line, which is no longer than the raw line. |
| Core.CleanLineCuts | app/core.py:322 | A cleaned line is a suffix of the trimmed line. A trimmed line that starts with a bullet or numbering character always loses it, and everything else cut is whitespace. Anything cut is one such character plus the whitespace behind it. A line without such a leading character is kept verbatim after trimming. |
| Core.CleanLineTrimmed | app/core.py:322 | A cleaned line neither starts nor ends with whitespace. |
| Core.CleanNumberedLine | app/core.py:322 | A numbered line loses only its first digit: "12. Dune" becomes "2. Dune" and "1. Dune" becomes ". Dune". |
| Core.CleanBulletLine | app/core.py:322 | A "-", "*" or "•" bullet is removed together with the blank after it, leaving the title. |
| Core.CleanedLines | app/core.py:320-322 | One cleaned line per answer line. |
| Core.KeptTitles | app/core.py:320-324 | The loop collects no more titles than there are lines. |
| Core.KeptTitlesExactly | app/core.py:320-324 | The collected titles are exactly the cleaned lines longer than two characters, in line order. A cleaned line is kept if and only if it is longer than two characters. |
| Core.SliceTo | app/core.py:326 | `titles[:n]`: a prefix with length min(n, len) for n >= 0. A negative n drops elements from the end. |
| Core.Recommendations | app/core.py:314-326 | The parser's result, with at most `recommendation_count` titles for a non-negative count. |
| Core.RecommendationsProperties | app/core.py:317-326 | At most `recommendation_count` titles, each longer than two characters. They form an in-order subsequence of the cleaned answer lines. |
| Core.RecommendationsCount | app/core.py:326 | With a non-negative count, exactly that many titles are returned, or all the titles found when there are fewer. |
| Core.ParseRecommendations | app/core.py:314-326 | The loop returns `Recommendations(text, count)`: bounded by the count, every title longer than two characters, in answer order. |
| Core.PlexServer.constructor | app/core.py:26-28 | A server with the given sections, search behaviour and playlists, and no lookups made yet. |
| Core.PlexServer.Search | app/core.py:352 | Returns the library's answer for the title and records the lookup. Nothing else changes. |
| Core.PlexServer.DeletePlaylist | app/core.py:370-375 | Removes the playlist with that name. A missing playlist is ignored. |
| Core.PlexServer.CreatePlaylist | app/core.py:378 | When creation succeeds, the name maps to exactly the given movies. When it raises, the playlists are unchanged. |
| Core.PlaylistOutcome.Message | app/core.py:338-386 | The returned dictionary has a `message` exactly when nothing was created: "Feature disabled" for the switch, otherwise the Spanish "no movies found" text. |
| Core.PlaylistOutcome.Success | app/core.py:338-386 | `success` is true exactly when the dictionary has no message, that is, when the playlist was created. |
| Core.Partition | app/core.py:346-359 | The search loop files every requested title once: found plus not found is the number of titles. |
| Core.PartitionSplitsTitles | app/core.py:346-359 | Every requested title lands in exactly one list (found or not found), and the sizes add up. A title is not found if and only if its search returned nothing or raised. The found list holds the first hit of each title that has one, and nothing else. |
| Core.PartitionNothingFound | app/core.py:361 | Nothing is found exactly when no requested title has a search hit. |
| Core.CreatePlaylist | app/core.py:328-390 | With the switch off: "Feature disabled", no lookup and no change. A missing library section raises and changes nothing. Otherwise every title is searched once, in order. If nothing is found the result is the not-found list and the playlists are untouched. Otherwise the old playlist is replaced by exactly the found movies and `movies_added` is their count. A failed creation raises with the old playlist deleted. |
| Notifiers.TelegramMessage | app/notifiers.py:31-33 | The message opens with the fixed header line and a newline. |
| Notifiers.NumberedLines | app/notifiers.py:31-33 | One numbered line per title. |
| Notifiers.TelegramRequestFor | app/notifiers.py:23-38 | A request is made exactly when Telegram is configured and there are titles. It goes to the bot's `sendMessage` URL with the configured chat id and the message text. |
| Notifiers.SendTelegramMessage | app/notifiers.py:17-50 | True exactly when Telegram is configured, there are titles and the reply is status 200. A skip, any other status or a transport failure gives false, and so does a disabled Telegram switch. |
| Notifiers.TelegramMessageLines | app/notifiers.py:31-33 | The message is the fixed header line, then exactly one line "k. title" per title. k runs from 1 in title order and reads back as k. |
| Notifiers.CreateOrUpdatePlaylist | app/notifiers.py:53-64 | True exactly when the playlist switch is on. |
| Text.StripCuts | app/core.py:317 | `strip()` removes whitespace from the two ends and nothing else. |
| Text.SplitJoin | app/core.py:292 | Splitting a newline join of line-free parts gives back the parts. This is how the joined outputs are shown to be one line per item. |
| Text.JoinSplit | app/core.py:317 | Joining the pieces of a split with the separator gives back the string. |
| Text.DecimalRoundTrip | app/notifiers.py:32 | The decimal text of a number reads back as that number. |

## Left out

- OpenAI orchestration is out: `_ensure_assistant`, `_ensure_vector_store`, `_cleanup_vector_store_files`, the JSON file upload in `sync_library` and the thread, message and run calls of `get_recommendations`. These are calls into a remote SDK with remote state. The assistant's answer text is an input to `Core.ParseRecommendations`.
- `_wait_for_run_completion` is out. It polls a remote service with `time.sleep`.
- `get_recommendations` is out: its history fetch (`library.search` sorted by last view, limited by `history_lookback`) and its prompt around the history context. The history is an input to `Core.BuildHistoryContext`.
- The mutable `assistant_id` and `vector_store_id` fields of `PlexAICurator` are out, because only the OpenAI calls use them.
- The Plex client is out. `Core.PlexServer` stands for it with a fixed search function, a set of library sections and a flag for whether playlist creation succeeds. A search that raises is `SearchFailed`.
- `app/main.py` (HTTP routing, token check, background tasks) is not part of this model.
- The Telegram HTTP POST is out. Its outcome, a status code or a transport failure, is an input to `Notifiers.SendTelegramMessage`.
- Logging and the logging configuration are out.
- `rating` is passed through as an opaque value with no arithmetic, so no floating-point behaviour is modelled.
- `json.dumps` of the dataset is out. The model stops at the list of records.
- `Core.IsBulletChar`: `\d` in the cleaning expression is taken as the ASCII digits 0-9. Python also matches other Unicode decimal digits there.
- `Notifiers.TelegramMessageLines`: in Python 3 the header literal `"\ud83c\udfa5"` is a string holding two lone surrogate code points, not the character U+1F3A5. A JSON encoder that escapes non-ASCII sends them as a valid escaped surrogate pair, which decodes to U+1F3A5. An encoder that writes raw UTF-8 would fail on the lone surrogates inside the `try`, and `send_telegram_message` would return False. The model uses the single character U+1F3A5, because a Dafny `char` cannot hold a lone surrogate. It does not model the second case.
- `Core.PlexServer.DeletePlaylist`: the source wraps the lookup and `delete()` in a bare `except: pass`. A `delete()` that fails on an existing playlist is therefore swallowed, that playlist stays, and `createPlaylist` then adds a second playlist with the same name. The model always removes the playlist, and its playlists are a map from name to movies, so it does not capture two playlists with one name.
- `Core.MovieToRecord`: a `viewCount` attribute that is present but holds None would make the source's `> 0` comparison raise. The model has no such value.
