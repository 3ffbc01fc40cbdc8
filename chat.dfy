// The chat transcript: messages from the user and from the assistant, the
// greeting the transcript starts with, and the eight canned replies one of
// which answers each user message.

module Chat {

  datatype Sender = User | Ai

  /** One chat message; `timestamp` is a clock reading in milliseconds. */
  datatype Message = Message(id: int, sender: Sender, content: string, timestamp: int)

  /** The replies the assistant picks from. */
  const Replies: seq<string> := [
    "ОГО! Ты реально хочешь это сделать? Ладно, я поверю! 🤯",
    "Когда ты сделаешь это? Сейчас или когда мама начнет кричать \"УЖИН!\"? 😅",
    "БРО! Это же элементарно! Давай разобьем на микрозадачи, как TikTok-ролики!",
    "Я уже вижу твое лицо, когда ты поймешь, что сделал всё! 🏆",
    "Ты как тот парень из мемов: \"Планирую весь день\" vs \"Лежу в TikTok\" 🤡",
    "Отлично! Только не забудь потом сказать \"Я же говорил, что справлюсь!\" 💪",
    "Когда ты сделаешь это, я сделаю тебе виртуальный кофе! ☕ (но ты сам купишь настоящий)",
    "Это как уровень в игре! Сделаешь - ачивка \"Я не лентяй\"! 🎮"
  ]

  /** `generateAIResponse`: the reply at a position drawn uniformly from
      [0, 8); the draw is the `index` argument, and the user's text plays no
      part in the choice. */
  function Reply(index: nat): (r: string)
    requires index < |Replies|
    ensures r in Replies
  {
    Replies[index]
  }

  /** Every reply is a non-empty text: the assistant never answers with nothing. */
  lemma RepliesNonEmpty()
    ensures |Replies| == 8
    ensures forall i :: 0 <= i < |Replies| ==> |Replies[i]| > 0
  {
    assert |Replies[0]| > 0 && |Replies[1]| > 0 && |Replies[2]| > 0 && |Replies[3]| > 0;
    assert |Replies[4]| > 0 && |Replies[5]| > 0 && |Replies[6]| > 0 && |Replies[7]| > 0;
  }

  const GreetingText: string :=
    "Привет, прокрастинатор! 😎 Я твой AI-друг по борьбе с ленью! Расскажи, что хочешь сделать, пока TikTok не съел весь твой день!"

  /** The assistant message the transcript starts with, stamped five minutes
      before the session opened. */
  function Greeting(now: int): (m: Message)
    ensures m.id == 1 && m.sender == Ai && m.timestamp == now - 300000
  {
    Message(1, Ai, GreetingText, now - 300000)
  }
}
