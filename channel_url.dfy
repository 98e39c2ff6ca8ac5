/**
  * The canonical reference under which a forwarded-from chat is registered:
  * `https://t.me/<username>` when the chat has a username that Python treats
  * as true (present and non-empty), and the synthetic `chat_id:<id>` otherwise.
  */
module ChannelUrls {
  import opened Wrappers
  import Decimal
  import Lines

  /** The `forward_from_chat` of an incoming message: its numeric id and optional public username. */
  datatype Chat = Chat(id: int, username: Option<string>)

  /** What a registered URL designates: a public username or a bare chat id. */
  datatype ChannelRef = ByUsername(name: string) | ByChatId(id: int)

  const UsernamePrefix: string := "https://t.me/"
  const ChatIdPrefix: string := "chat_id:"

  /** Python truthiness of `chat.username`: neither `None` nor the empty string. */
  predicate HasUsername(chat: Chat) {
    chat.username.Some? && chat.username.value != ""
  }

  /** The reference the derivation is meant to preserve. */
  function RefOf(chat: Chat): ChannelRef {
    if HasUsername(chat) then ByUsername(chat.username.value) else ByChatId(chat.id)
  }

  /** The URL derivation of `handle_forwarded_message`. */
  function ChannelUrl(chat: Chat): (url: string)
    ensures |url| > |ChatIdPrefix|
    ensures UsernamePrefix <= url <==> HasUsername(chat)
    ensures ChatIdPrefix <= url <==> !HasUsername(chat)
  {
    if HasUsername(chat) then
      var url := UsernamePrefix + chat.username.value;
      assert url[0] == UsernamePrefix[0] != ChatIdPrefix[0];
      url
    else
      var url := ChatIdPrefix + Decimal.IntToString(chat.id);
      assert url[0] == ChatIdPrefix[0] != UsernamePrefix[0];
      url
  }

  /** Reads a registered URL back as the reference it names; `None` for any other text. */
  function ParseChannelUrl(url: string): Option<ChannelRef> {
    if UsernamePrefix <= url && |url| > |UsernamePrefix| then
      Some(ByUsername(url[|UsernamePrefix|..]))
    else if ChatIdPrefix <= url && Decimal.IsIntString(url[|ChatIdPrefix|..]) then
      Some(ByChatId(Decimal.ParseInt(url[|ChatIdPrefix|..])))
    else
      None
  }

  /** Every derived URL reads back as the chat's reference. */
  lemma ChannelUrlRoundTrip(chat: Chat)
    ensures ParseChannelUrl(ChannelUrl(chat)) == Some(RefOf(chat))
  {
    var url := ChannelUrl(chat);
    if HasUsername(chat) {
      assert url[|UsernamePrefix|..] == chat.username.value;
    } else {
      assert url[|ChatIdPrefix|..] == Decimal.IntToString(chat.id);
      Decimal.IntToStringRoundTrip(chat.id);
    }
  }

  /**
    * Two forwarded chats land under the same URL exactly when they have the same
    * reference: the same non-empty username, or no username and the same id.
    */
  lemma SameUrlIffSameRef(a: Chat, b: Chat)
    ensures ChannelUrl(a) == ChannelUrl(b) <==> RefOf(a) == RefOf(b)
  {
    ChannelUrlRoundTrip(a);
    ChannelUrlRoundTrip(b);
  }

  /** A derived URL holds no newline when the username holds none, so it is one line of a listing. */
  lemma ChannelUrlSingleLine(chat: Chat)
    requires chat.username.Some? ==> Lines.NoNewline(chat.username.value)
    ensures Lines.NoNewline(ChannelUrl(chat))
  {
  }
}
