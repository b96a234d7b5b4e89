/**
  The Telegram notification and the playlist stub: which requests are made
  under which switches, and the text of the message that lists the titles.
  The HTTP call is outside the model; its result is an input.
 */
module Notifiers {
  import opened Wrappers
  import opened Text
  import opened Config

  /** The first line of every message ("Here are your AI recommendations"). */
  const HeaderLine: string := "\U{1F3A5} Aqu\U{ed} tienes tus recomendaciones de la IA:"

  const TelegramApi: string := "https://api.telegram.org/bot"

  /** Title k (counting from 1) written as "k. title". */
  function NumberedLine(k: nat, title: string): string {
    NatToDecimal(k) + ". " + title
  }

  function NumberedLines(titles: seq<string>): (lines: seq<string>)
    ensures |lines| == |titles|
  {
    seq(|titles|, i requires 0 <= i < |titles| => NumberedLine(i + 1, titles[i]))
  }

  /** The message text: the header, a newline, then the numbered titles one per line. */
  function TelegramMessage(titles: seq<string>): (message: string)
    ensures |message| > |HeaderLine| && message[..|HeaderLine| + 1] == HeaderLine + "\n"
  {
    HeaderLine + "\n" + Join("\n", NumberedLines(titles))
  }

  /** The POST `send_telegram_message` makes: the bot URL and its JSON payload. */
  datatype TelegramRequest = TelegramRequest(url: string, chatId: string, text: string)

  /** How the POST ended: an HTTP status, or an exception (network failure). */
  datatype HttpResult = Response(statusCode: int) | RequestFailed

  /** The request `send_telegram_message` makes, or None when it returns
      before making one: Telegram not configured, or no titles. */
  function TelegramRequestFor(settings: Settings, titles: seq<string>): (req: Option<TelegramRequest>)
    ensures req.Some? <==> HasTelegram(settings) && titles != []
    ensures req.Some? ==> req.value.text == TelegramMessage(titles)
    ensures req.Some? ==> req.value.chatId == settings.telegramChatId.value
    ensures req.Some? ==> req.value.url == TelegramApi + settings.telegramBotToken.value + "/sendMessage"
  {
    if !HasTelegram(settings) then None
    else if titles == [] then None
    else Some(TelegramRequest(
      url := TelegramApi + settings.telegramBotToken.value + "/sendMessage",
      chatId := settings.telegramChatId.value,
      text := TelegramMessage(titles)))
  }

  /** `send_telegram_message`: true exactly when the message was sent and
      Telegram answered 200; every skip, other status or failure is false. */
  function SendTelegramMessage(settings: Settings, titles: seq<string>, reply: HttpResult): (sent: bool)
    ensures sent <==> HasTelegram(settings) && titles != [] && reply == Response(200)
    ensures !settings.enableTelegram ==> !sent
  {
    match TelegramRequestFor(settings, titles)
    case None => false
    case Some(_) => reply.Response? && reply.statusCode == 200
  }

  /** `create_or_update_playlist`: a stub that reports whether playlists are enabled. */
  function CreateOrUpdatePlaylist<T>(settings: Settings, movies: seq<T>): (prepared: bool)
    ensures prepared <==> settings.enablePlexPlaylist
  {
    if !settings.enablePlexPlaylist then false else true
  }

  lemma {:induction false} NumberedLineOnOneLine(k: nat, title: string)
    requires '\n' !in title
    ensures '\n' !in NumberedLine(k, title)
  {
  }

  /** The message has the header as its first line and then exactly one line
      per title, in order, numbered 1, 2, 3, ...: the number in front of title
      on line k reads back as k. */
  lemma {:induction false} TelegramMessageLines(titles: seq<string>)
    requires titles != []
    requires forall k :: 0 <= k < |titles| ==> '\n' !in titles[k]
    ensures var lines := Split(TelegramMessage(titles), '\n');
      && |lines| == |titles| + 1
      && lines[0] == HeaderLine
      && forall k :: 1 <= k <= |titles| ==>
           && lines[k] == NatToDecimal(k) + ". " + titles[k - 1]
           && DecimalValue(NatToDecimal(k)) == k
  {
    var numbered := NumberedLines(titles);
    var all := [HeaderLine] + numbered;
    assert all[1..] == numbered;
    assert Join("\n", all) == TelegramMessage(titles);
    forall k | 0 <= k < |all| ensures '\n' !in all[k] {
      if k > 0 {
        NumberedLineOnOneLine(k, titles[k - 1]);
      }
    }
    SplitJoin(all, '\n');
    forall k | 1 <= k <= |titles| ensures DecimalValue(NatToDecimal(k)) == k {
      DecimalRoundTrip(k);
    }
  }
}
