/**
  * The texts the bot replies with. Each handler ends in exactly one of four
  * kinds of reply; the texts are built so that the kind (and its payload) can
  * be read back from the text alone.
  */
module Replies {
  import opened Wrappers
  import Lines

  datatype Reply =
    | Saved(url: string)               // a forwarded channel was stored
    | Failed(detail: string)           // storage raised; `detail` is `str(e)`
    | ChannelList(urls: seq<string>)   // the distinct stored URLs
    | NoChannels                       // nothing stored yet

  const SavedPrefix: string := "✅ Канал сохранён: "
  const ErrorPrefix: string := "❌ Ошибка: "
  const ListHeader: string := "📋 Список каналов:\n"
  const NoChannelsText: string := "ℹ️ Нет сохранённых каналов."

  /** The message text sent for a reply; its first character tells the kind apart. */
  function Text(reply: Reply): (text: string)
    ensures |text| > 0
    ensures text[0] == SavedPrefix[0] <==> reply.Saved?
    ensures text[0] == ErrorPrefix[0] <==> reply.Failed?
    ensures text[0] == ListHeader[0] <==> reply.ChannelList?
    ensures text[0] == NoChannelsText[0] <==> reply.NoChannels?
  {
    match reply
    case Saved(url) => SavedPrefix + url
    case Failed(detail) => ErrorPrefix + detail
    case ChannelList(urls) => ListHeader + Lines.Join(urls)
    case NoChannels => NoChannelsText
  }

  /** The reply for the distinct URLs a listing read: the fixed notice exactly when there are none. */
  function ListingReply(urls: seq<string>): Reply {
    if urls == [] then NoChannels else ChannelList(urls)
  }

  /** The replies the handlers can give: a listing is non-empty and lists one URL per line. */
  predicate WellFormed(reply: Reply) {
    reply.ChannelList? ==> |reply.urls| > 0 && Lines.AllNoNewline(reply.urls)
  }

  /** Reads a reply text back as the reply it renders; `None` for any other text. */
  function Parse(text: string): Option<Reply> {
    if SavedPrefix <= text then Some(Saved(text[|SavedPrefix|..]))
    else if ErrorPrefix <= text then Some(Failed(text[|ErrorPrefix|..]))
    else if ListHeader <= text then Some(ChannelList(Lines.Split(text[|ListHeader|..])))
    else if text == NoChannelsText then Some(NoChannels)
    else None
  }

  /** A well-formed reply's text reads back as exactly the reply that produced it. */
  lemma ParseText(reply: Reply)
    requires WellFormed(reply)
    ensures Parse(Text(reply)) == Some(reply)
  {
    var text := Text(reply);
    match reply
    case Saved(url) =>
      assert text[|SavedPrefix|..] == url;
    case Failed(detail) =>
      assert text[|ErrorPrefix|..] == detail;
    case ChannelList(urls) =>
      assert text[|ListHeader|..] == Lines.Join(urls);
      Lines.SplitJoin(urls);
    case NoChannels =>
  }

  /** Different well-formed replies never share a text: the strings handed to `reply` differ. */
  lemma TextInjective(a: Reply, b: Reply)
    requires WellFormed(a) && WellFormed(b)
    ensures Text(a) == Text(b) <==> a == b
  {
    ParseText(a);
    ParseText(b);
  }
}
