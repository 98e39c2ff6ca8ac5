# channels_collector — a Dafny model of the channel registry

`channels_collector` is a Telegram bot that collects channels. When a user forwards
it a message that came from a channel, the bot works out a canonical reference for
that channel and appends a row to a `channels` table. The row holds a key, the
channel's numeric id, its URL and a timestamp. The `/channels` command replies with
every distinct URL stored so far.

This project models the part of `main.py` that makes decisions:

- **URL derivation** (`ChannelUrls`, with `Decimal` for Python's `str(int)`). A chat
  whose `username` is truthy in Python (present and non-empty) becomes
  `https://t.me/<username>`. Any other chat becomes `chat_id:<id>`. A parser reads
  such a URL back: the derived URL keeps the chat's reference (the username when
  it is truthy, otherwise the id).
- **Reply texts** (`Replies`, with `Lines` for `"\n".join`). There are four kinds of
  reply: saved, error, channel list and no channels. Each kind has its own first
  character. A parser reads a reply back, so distinct well-formed replies (a listing
  is non-empty and no URL in it contains a newline) never share a text.
- **The registry** (`Registry`). `ChannelRegistry` is a class. It holds the table as
  a `seq<Record>` and holds the key the next committed row gets.
  - `HandleForwardedMessage` stages one row and then commits it or rolls it back.
  - `DistinctUrls` is the `SELECT DISTINCT` projection, written as a loop.
  - `SendChannelsList` formats the listing reply. It has no `modifies` clause, so it
    cannot change the table.
  - The pure functions `UrlColumn` and `Distinct` specify the projection. The lemmas
    about them state the "each URL exactly once" property.

The aiogram filter `F.forward_from_chat` lets the insert handler run only when the
message carries a forwarded-from chat. The model therefore passes that `Chat` to the
handler directly. Storage and query failures are parameters
(`StorageOutcome`, `QueryOutcome`). Each failure carries the exception text that
goes into the error reply. The clock reading for the `timestamp` column is an
opaque `now` parameter.

`main.py` has no bot-relayed forward path, no name lookup and no `channel_name`
column. Its table holds only `id`, `channel_id`, `channel_url` and `timestamp`. Its
success reply carries only the URL.

## Model

| member | source | states |
|---|---|---|
| `ChannelUrls.ChannelUrl` | main.py:63-64 | The URL starts with `https://t.me/` exactly when the username is present and non-empty, and with `chat_id:` exactly when it is not; it is never empty |
| `ChannelUrls.ChannelUrlRoundTrip` | main.py:64 | Parsing a derived URL gives back the chat's reference: the username when it is truthy, otherwise the numeric id |
| `ChannelUrls.SameUrlIffSameRef` | main.py:64 | Two chats get the same URL if and only if they have the same reference (the same truthy username, or no username and the same id) |
| `ChannelUrls.ChannelUrlSingleLine` | main.py:64 | A derived URL contains no newline when the username contains none, so it fills exactly one line of the listing |
| `Decimal.NatToString` | main.py:64 | The decimal text of a natural number is non-empty, is all digits, and starts with `0` only for zero |
| `Decimal.IntToString` | main.py:64 | `str(id)` is non-empty, starts with `-` exactly for a negative id, and contains only digits and `-` |
| `Decimal.IntToStringRoundTrip` | main.py:64 | `int(str(id)) == id`: the `chat_id:` suffix reads back as the id |
| `Decimal.IntToStringInjective` | main.py:64 | Different ids print differently |
| `Lines.Join` | main.py:92 | `"\n".join` of a non-empty list of single-line items contains exactly one newline fewer than there are items |
| `Lines.JoinSplit` | main.py:92 | Joining the pieces of any text split at newlines gives back the text, so `Join` reaches every text |
| `Lines.SplitJoin` | main.py:92 | Splitting `"\n".join(items)` at newlines gives back the items, when the list is non-empty and no item contains a newline |
| `Replies.Text` | main.py:74-100 | The reply text is never empty, and its first character tells which of the four replies it is (saved, error, list, none) |
| `Replies.ParseText` | main.py:74-100 | Every well-formed reply reads back as the reply that produced it: a saved or error reply, the notice, or a non-empty listing whose URLs contain no newline |
| `Replies.TextInjective` | main.py:74-100 | Two well-formed replies have the same text if and only if they are the same reply |
| `Registry.Distinct` | main.py:87-89 | The distinct projection has no duplicates, and a value is in it if and only if it is in the column |
| `Registry.DistinctListsOnce` | main.py:87-89 | Each stored URL occurs exactly once in the projection, however many rows carry it; a URL that is not stored occurs zero times |
| `Registry.DistinctAbsorbsDuplicate` | main.py:87-89 | Appending a URL that is already stored leaves the projection unchanged |
| `Registry.UrlColumnAppend` | main.py:68-72 | Appending a row extends the `channel_url` column by that row's URL |
| `Registry.ForwardTwiceListedOnce` | main.py:87-89 | For two rows with the same URL appended to any log, the projection equals the one after the first row and lists that URL exactly once |
| `Registry.ForwardTwice` | main.py:61-89 | Forwarding the same chat twice to a new table, with both commits succeeding, stores two rows. Both rows carry the chat's id and URL under different keys, so writes do not deduplicate. The listing afterwards is exactly that one URL |
| `Registry.StagedRowConsistent` | main.py:64-71 | A staged row's URL always parses back; when it is a `chat_id:` URL, it names the row's own `channel_id` |
| `Registry.DistinctSingleLine` | main.py:87-92 | If no stored URL contains a newline, no URL in the projection does either |
| `Registry.ListingReadsBack` | main.py:87-97 | If no stored URL contains a newline, the listing reply parses back as exactly the distinct URLs (or as the "no channels" notice) |
| `Registry.ForwardedListingReadsBack` | main.py:64-97 | For a table whose every row's URL was derived from a forwarded chat whose username (if any) has no newline, the listing reply reads back as exactly the distinct URLs (or as the "no channels" notice) |
| `Registry.ChannelRegistry.constructor` | main.py:33-40 | A new table is empty; its first row will get key 1 |
| `Registry.ChannelRegistry.HandleForwardedMessage` | main.py:61-78 | On commit, exactly one row `{key, chat.id, derived URL, now}` is appended under a key that no existing row has, and the reply is `✅ Канал сохранён: <url>`. On failure the table and the next key are unchanged and the reply is `❌ Ошибка: <detail>`. The invariant (increasing keys, consistent rows) is preserved |
| `Registry.ChannelRegistry.DistinctUrls` | main.py:85-89 | The loop returns the distinct projection of the URL column: no duplicates, every stored URL present, and every element some row's URL. The table is not modified |
| `Registry.ChannelRegistry.SendChannelsList` | main.py:83-100 | If the query fails, the reply is the error reply. Otherwise it is the listing of the distinct URLs, and it is the "no channels" notice exactly when the table is empty. The table is not modified |

## Left out

- authorize_telethon.py: logging in a Telethon session and saving the session file is network and file I/O. It makes no decisions, so it is not part of this model.
- Bot and dispatcher setup, `start_polling` and the `main` entry point (main.py:55-56, 105-111): these are framework plumbing. The message filters at main.py:61 and main.py:83 are modelled only as "the insert handler receives a forwarded-from chat".
- Engine, session factory and `create_tables` / `create_all` (main.py:44-52): these are foreign library calls. The table is a sequence, and the constructor stands for the empty table that `create_all` creates on first start.
- The `timestamp` default `datetime.utcnow` (main.py:39-40): it reads the wall clock. It is carried as an opaque `now` parameter.
- Key assignment: the counter that starts at 1 and grows by one per committed row is an assumption about the storage, not a description of SQLite. main.py:36 declares `id` as `BigInteger`. With SQLAlchemy on SQLite (main.py:44), only a column typed exactly `INTEGER` becomes an auto-assigned rowid alias. A `BIGINT` primary key gets no value, so plausibly every insert at main.py:68-72 fails with a NOT NULL constraint error. This follows SQLAlchemy's documented SQLite behaviour for non-`INTEGER` primary keys; the model leaves the commit outcome open. In the model that case is the `CommitFailed` outcome: the table stays as it was and the error reply is sent. The model does not decide which outcome the real engine produces.
- Logging and `.env` loading (main.py:15-24): side effects with no bearing on the replies or the table.
- async/await and concurrent handling: each handler runs to completion, one after another.
- The row order of `select(distinct(...))`: the database does not specify it. `Distinct` returns first-occurrence order, which is one admissible order. The stated properties concern set contents and the absence of duplicates, not order.
- Sending the reply is assumed to succeed. In the source, an exception raised by `message.reply` after a successful commit would land in the same `except` branch. The row would stay stored, and a second (error) reply would be attempted. The model does not cover this path.
- `str(e)` of an exception is not modelled. The failure outcome carries its text as `detail`.
- Usernames with a newline: the model lets `Chat.username` be any string. Platform usernames are letters, digits and `_`, but the model does not assume this. For a username that contains a newline, the listing reply built at main.py:92 reads back as more URLs than were stored. `Registry.ForwardedListingReadsBack` therefore states the read-back only for single-line usernames.
