/**
  * The `channels` table and the two bot handlers that use it. The table is an
  * append-only log: forwarding a message appends one row (or nothing, when the
  * commit fails), and `/channels` reads the distinct URLs without writing.
  */
module Registry {
  import opened Wrappers
  import opened ChannelUrls
  import Lines
  import Replies

  /** An opaque reading of the wall clock, stored in the `timestamp` column. */
  type Timestamp = int

  /** One row of the `channels` table. */
  datatype Record = Record(id: int, channelId: int, channelUrl: string, timestamp: Timestamp)

  /** How the commit of a pending row ends: stored, or an exception whose text is `detail`. */
  datatype StorageOutcome = Committed | CommitFailed(detail: string)

  /** How the `SELECT DISTINCT` query ends: rows returned, or an exception whose text is `detail`. */
  datatype QueryOutcome = Rows | QueryFailed(detail: string)

  /** The `channel_url` column, row by row. */
  function UrlColumn(rows: seq<Record>): (urls: seq<string>)
    ensures |urls| == |rows|
    ensures forall i :: 0 <= i < |rows| ==> urls[i] == rows[i].channelUrl
  {
    if rows == [] then [] else UrlColumn(rows[..|rows| - 1]) + [rows[|rows| - 1].channelUrl]
  }

  predicate NoDuplicates(s: seq<string>) {
    forall i, j :: 0 <= i < j < |s| ==> s[i] != s[j]
  }

  /**
    * `SELECT DISTINCT` over a column: every value once, in order of first
    * occurrence (the database promises no order; this is one admissible one).
    */
  function Distinct(s: seq<string>): (d: seq<string>)
    ensures NoDuplicates(d)
    ensures forall x :: x in d <==> x in s
  {
    if s == [] then []
    else
      var d := Distinct(s[..|s| - 1]);
      assert forall x :: x in s <==> x in s[..|s| - 1] || x == s[|s| - 1];
      if s[|s| - 1] in d then d else d + [s[|s| - 1]]
  }

  /** Primary keys: each row's id lies in [1, next) and ids grow along the log, so none repeats. */
  predicate KeysIncreasing(rows: seq<Record>, next: int) {
    (forall i :: 0 <= i < |rows| ==> 1 <= rows[i].id < next) &&
    (forall i, j :: 0 <= i < j < |rows| ==> rows[i].id < rows[j].id)
  }

  /**
    * A row's URL reads back as a reference, and a synthetic `chat_id:` URL
    * names the row's own `channel_id`.
    */
  predicate RowConsistent(r: Record) {
    match ParseChannelUrl(r.channelUrl)
    case Some(ByChatId(id)) => id == r.channelId
    case Some(ByUsername(_)) => true
    case None => false
  }

  /** The row `handle_forwarded_message` stages for a chat is consistent, whatever key and clock it gets. */
  lemma StagedRowConsistent(chat: Chat, id: int, now: Timestamp)
    ensures RowConsistent(Record(id, chat.id, ChannelUrl(chat), now))
  {
    ChannelUrlRoundTrip(chat);
  }

  /** Each stored value is listed exactly once, however many rows carry it; other values not at all. */
  lemma {:induction false} DistinctListsOnce(s: seq<string>, x: string)
    ensures multiset(Distinct(s))[x] == if x in s then 1 else 0
  {
    if s != [] {
      var init := s[..|s| - 1];
      DistinctListsOnce(init, x);
      assert forall y :: y in s <==> y in init || y == s[|s| - 1];
    }
  }

  /** Storing a value that is already stored leaves the distinct listing as it was. */
  lemma DistinctAbsorbsDuplicate(s: seq<string>, x: string)
    requires x in s
    ensures Distinct(s + [x]) == Distinct(s)
  {
  }

  /** The url column of a log with one more row is the old column with that row's url. */
  lemma UrlColumnAppend(rows: seq<Record>, r: Record)
    ensures UrlColumn(rows + [r]) == UrlColumn(rows) + [r.channelUrl]
  {
  }

  /**
    * Two rows with the same URL appended to the log (the write path does not
    * deduplicate): the listing is the same as after the first, and names that URL once.
    */
  lemma {:induction false} ForwardTwiceListedOnce(rows: seq<Record>, first: Record, second: Record)
    requires first.channelUrl == second.channelUrl
    ensures Distinct(UrlColumn(rows + [first, second])) == Distinct(UrlColumn(rows + [first]))
    ensures multiset(Distinct(UrlColumn(rows + [first, second])))[first.channelUrl] == 1
  {
    assert rows + [first, second] == (rows + [first]) + [second];
    UrlColumnAppend(rows, first);
    UrlColumnAppend(rows + [first], second);
    DistinctAbsorbsDuplicate(UrlColumn(rows + [first]), first.channelUrl);
    DistinctListsOnce(UrlColumn(rows + [first, second]), first.channelUrl);
  }

  /** Distinct values of single-line strings are single-line strings. */
  lemma DistinctSingleLine(column: seq<string>)
    requires Lines.AllNoNewline(column)
    ensures Lines.AllNoNewline(Distinct(column))
  {
  }

  /**
    * When no stored URL spans lines, the listing reply reads back as the
    * distinct URLs themselves (or as the notice that there are none).
    */
  lemma ListingReadsBack(rows: seq<Record>)
    requires forall i :: 0 <= i < |rows| ==> Lines.NoNewline(rows[i].channelUrl)
    ensures Replies.Parse(Replies.Text(Replies.ListingReply(Distinct(UrlColumn(rows))))) ==
            Some(Replies.ListingReply(Distinct(UrlColumn(rows))))
  {
    var urls := Distinct(UrlColumn(rows));
    DistinctSingleLine(UrlColumn(rows));
    Replies.ParseText(Replies.ListingReply(urls));
  }

  /**
    * A table whose rows were derived from forwarded chats with single-line
    * usernames (as the platform's usernames are) gives a listing reply that
    * reads back as exactly the distinct URLs.
    */
  lemma ForwardedListingReadsBack(rows: seq<Record>, chats: seq<Chat>)
    requires |rows| == |chats|
    requires forall i :: 0 <= i < |rows| ==> rows[i].channelUrl == ChannelUrl(chats[i])
    requires forall i :: 0 <= i < |chats| && chats[i].username.Some? ==> Lines.NoNewline(chats[i].username.value)
    ensures Replies.Parse(Replies.Text(Replies.ListingReply(Distinct(UrlColumn(rows))))) ==
            Some(Replies.ListingReply(Distinct(UrlColumn(rows))))
  {
    forall i | 0 <= i < |chats| {
      ChannelUrlSingleLine(chats[i]);
    }
    assert forall i :: 0 <= i < |rows| ==> Lines.NoNewline(rows[i].channelUrl);
    ListingReadsBack(rows);
  }

  /** The `channels` table as the bot's session sees it. */
  class ChannelRegistry {
    var rows: seq<Record>
    /** The key the database gives the next committed row. */
    var nextId: int

    ghost predicate Valid()
      reads this
    {
      1 <= nextId && KeysIncreasing(rows, nextId) &&
      forall i :: 0 <= i < |rows| ==> RowConsistent(rows[i])
    }

    /** An empty table, as `create_all` leaves it on first start. */
    constructor ()
      ensures Valid() && rows == [] && nextId == 1
    {
      rows := [];
      nextId := 1;
    }

    /**
      * `handle_forwarded_message`: derive the URL, stage one row, commit. A
      * commit appends exactly that row under a fresh key; a failed commit is
      * rolled back and leaves the table as it was. Both end in a reply.
      */
    method HandleForwardedMessage(chat: Chat, outcome: StorageOutcome, now: Timestamp) returns (reply: string)
      requires Valid()
      modifies this
      ensures Valid()
      ensures outcome.Committed? ==>
        rows == old(rows) + [Record(old(nextId), chat.id, ChannelUrl(chat), now)] &&
        nextId == old(nextId) + 1 &&
        reply == Replies.Text(Replies.Saved(ChannelUrl(chat)))
      ensures outcome.Committed? ==> forall i :: 0 <= i < |old(rows)| ==> old(rows)[i].id != rows[|rows| - 1].id
      ensures outcome.CommitFailed? ==>
        rows == old(rows) && nextId == old(nextId) &&
        reply == Replies.Text(Replies.Failed(outcome.detail))
    {
      var url := ChannelUrl(chat);
      var pending := Record(nextId, chat.id, url, now);
      match outcome {
        case Committed =>
          StagedRowConsistent(chat, nextId, now);
          rows := rows + [pending];
          nextId := nextId + 1;
          reply := Replies.Text(Replies.Saved(url));
        case CommitFailed(detail) =>
          reply := Replies.Text(Replies.Failed(detail));
      }
    }

    /** `select(distinct(Channel.channel_url))`: each stored URL once, read without writing. */
    method DistinctUrls() returns (urls: seq<string>)
      ensures urls == Distinct(UrlColumn(rows))
      ensures NoDuplicates(urls)
      ensures forall i :: 0 <= i < |rows| ==> rows[i].channelUrl in urls
      ensures forall u :: u in urls ==> exists i :: 0 <= i < |rows| && rows[i].channelUrl == u
    {
      urls := [];
      var i := 0;
      while i < |rows|
        invariant 0 <= i <= |rows|
        invariant urls == Distinct(UrlColumn(rows[..i]))
      {
        assert rows[..i + 1] == rows[..i] + [rows[i]];
        UrlColumnAppend(rows[..i], rows[i]);
        assert UrlColumn(rows[..i + 1])[..i] == UrlColumn(rows[..i]);
        if rows[i].channelUrl !in urls {
          urls := urls + [rows[i].channelUrl];
        }
        i := i + 1;
      }
      assert rows[..i] == rows;
      forall u | u in urls ensures exists i :: 0 <= i < |rows| && rows[i].channelUrl == u {
        var k :| 0 <= k < |rows| && UrlColumn(rows)[k] == u;
      }
    }

    /**
      * `send_channels_list`: the distinct URLs under a header, one per line, or
      * a fixed notice when none is stored; a failed query gives the error reply.
      * It has no `modifies` clause: listing never changes the table.
      */
    method SendChannelsList(query: QueryOutcome) returns (reply: string)
      ensures query.QueryFailed? ==> reply == Replies.Text(Replies.Failed(query.detail))
      ensures query.Rows? ==> reply == Replies.Text(Replies.ListingReply(Distinct(UrlColumn(rows))))
      ensures query.Rows? ==> (reply == Replies.Text(Replies.NoChannels) <==> rows == [])
    {
      match query {
        case QueryFailed(detail) =>
          reply := Replies.Text(Replies.Failed(detail));
        case Rows =>
          var urls := DistinctUrls();
          if |urls| > 0 {
            reply := Replies.Text(Replies.ChannelList(urls));
          } else {
            reply := Replies.Text(Replies.NoChannels);
          }
      }
    }
  }

  /**
    * Forwarding the same chat twice to a fresh table, both commits succeeding:
    * two rows under different keys, and the listing names the channel once.
    */
  method ForwardTwice(chat: Chat, first: Timestamp, second: Timestamp)
    returns (stored: seq<Record>, listed: seq<string>)
    ensures |stored| == 2
    ensures stored[0].channelUrl == stored[1].channelUrl == ChannelUrl(chat)
    ensures stored[0].channelId == stored[1].channelId == chat.id
    ensures stored[0].id != stored[1].id
    ensures listed == [ChannelUrl(chat)]
  {
    var registry := new ChannelRegistry();
    var reply := registry.HandleForwardedMessage(chat, Committed, first);
    reply := registry.HandleForwardedMessage(chat, Committed, second);
    stored := registry.rows;
    listed := registry.DistinctUrls();
    ForwardTwiceListedOnce([], stored[0], stored[1]);
    assert [stored[0]] == stored[..1];
    assert UrlColumn([stored[0]]) == [ChannelUrl(chat)];
  }
}
