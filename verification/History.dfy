/** Message history: pages of a room's stream from an inclusive cursor, and what a
    client gets by following the cursors. */
module History {
  import opened Wrappers
  import opened StreamCodec

  /** Stream entries; the server's ids increase along the stream, and `name` is the
      text of the id. */
  datatype Entry = Entry(id: nat, name: string, fields: seq<string>)

  datatype Page = Page(messages: seq<Decoded>, cursor: Option<nat>, hasMore: bool)

  predicate Sorted(stream: seq<Entry>) {
    forall i, j :: 0 <= i < j < |stream| ==> stream[i].id < stream[j].id
  }

  /** The entries with ids from `id` on. */
  function From(stream: seq<Entry>, id: nat): seq<Entry> {
    if stream == [] then [] else if stream[0].id >= id then stream else From(stream[1..], id)
  }

  function Rest(stream: seq<Entry>, cursor: Option<nat>): seq<Entry> {
    if cursor.Some? then From(stream, cursor.value) else stream
  }

  /** At most `count` entries from the front; none for a count that is not positive. */
  function Take<T>(s: seq<T>, count: int): seq<T> {
    if count <= 0 then [] else if count <= |s| then s[..count] else s
  }

  function DecodeAll(room: string, entries: seq<Entry>): seq<Decoded> {
    seq(|entries|, i requires 0 <= i < |entries| => Decode(entries[i].name, room, entries[i].fields))
  }

  /** One more entry than asked for is read, to see whether there are more. With
      limit 0 the page is empty and there is no entry to take the cursor from. */
  function FetchHistory(room: string, stream: seq<Entry>, limit: int, cursor: Option<nat>): Page {
    var results := Take(Rest(stream, cursor), limit + 1);
    if results == [] then Page([], None, false)
    else
      var hasMore := |results| > limit;
      var entries := if hasMore then results[..limit] else results;
      Page(DecodeAll(room, entries),
           if hasMore && entries != [] then Some(entries[|entries| - 1].id) else None,
           hasMore)
  }

  /** The newest entries, read backwards and turned round. */
  function Reversed<T>(s: seq<T>): seq<T> {
    if s == [] then [] else Reversed(s[1..]) + [s[0]]
  }

  function GetRecentMessages(room: string, stream: seq<Entry>, count: int): seq<Decoded> {
    DecodeAll(room, Reversed(Take(Reversed(stream), count)))
  }

  // ---- One page -------------------------------------------------------------------------

  lemma {:induction false} FromAt(stream: seq<Entry>, i: nat)
    requires Sorted(stream) && i < |stream|
    ensures From(stream, stream[i].id) == stream[i..]
  {
    if i > 0 {
      FromAt(stream[1..], i - 1);
      assert stream[1..][i - 1..] == stream[i..];
    }
  }

  /** Entries from a cursor are an end of the stream. */
  lemma {:induction false} RestIsEnd(stream: seq<Entry>, cursor: Option<nat>)
    requires Sorted(stream)
    ensures Sorted(Rest(stream, cursor)) && |Rest(stream, cursor)| <= |stream|
    ensures Rest(stream, cursor) == stream[|stream| - |Rest(stream, cursor)|..]
  {
    if cursor.Some? && stream != [] && stream[0].id < cursor.value {
      RestIsEnd(stream[1..], cursor);
    }
  }

  lemma TakeOneMore<T>(s: seq<T>, limit: int)
    requires 1 <= limit < |s|
    ensures |Take(s, limit + 1)| == limit + 1 && Take(s, limit + 1)[..limit] == s[..limit]
  {}

  /** The entries from a cursor that was taken from entry `i`. */
  lemma CursorLeads(stream: seq<Entry>, cursor: Option<nat>, i: nat)
    requires Sorted(stream) && i < |Rest(stream, cursor)|
    ensures From(stream, Rest(stream, cursor)[i].id) == Rest(stream, cursor)[i..]
  {
    var rest := Rest(stream, cursor);
    RestIsEnd(stream, cursor);
    var j := |stream| - |rest| + i;
    assert rest[i] == stream[j];
    FromAt(stream, j);
    assert stream[j..] == rest[i..];
  }

  /** A full page: its messages, and where its cursor leads. */
  lemma FullPage(room: string, stream: seq<Entry>, limit: int, cursor: Option<nat>)
    requires Sorted(stream) && 1 <= limit < |Rest(stream, cursor)|
    ensures
      var page, rest := FetchHistory(room, stream, limit, cursor), Rest(stream, cursor);
      && page == Page(DecodeAll(room, rest[..limit]), Some(rest[limit - 1].id), true)
      && Rest(stream, page.cursor) == rest[limit - 1..]
  {
    var rest := Rest(stream, cursor);
    TakeOneMore(rest, limit);
    CursorLeads(stream, cursor, limit - 1);
    assert rest[..limit][limit - 1] == rest[limit - 1];
  }

  /** The last page. */
  lemma LastPage(room: string, stream: seq<Entry>, limit: int, cursor: Option<nat>)
    requires 0 <= limit && |Rest(stream, cursor)| <= limit
    ensures FetchHistory(room, stream, limit, cursor) == Page(DecodeAll(room, Rest(stream, cursor)), None, false)
  {}

  lemma {:induction false} FromSplit(stream: seq<Entry>, id: nat, k: nat)
    requires k <= |stream| && (forall i :: 0 <= i < k ==> stream[i].id < id)
    requires k < |stream| ==> stream[k].id >= id
    ensures From(stream, id) == stream[k..]
  {
    if k > 0 {
      FromSplit(stream[1..], id, k - 1);
      assert stream[1..][k - 1..] == stream[k..];
    }
  }

  lemma PageOfRest(room: string, stream: seq<Entry>, limit: nat, cursor: Option<nat>)
    ensures
      var page, rest := FetchHistory(room, stream, limit, cursor), Rest(stream, cursor);
      if |rest| > limit
      then page == Page(DecodeAll(room, rest[..limit]), if limit > 0 then Some(rest[limit - 1].id) else None, true)
      else page == Page(DecodeAll(room, rest), None, false)
  {
    var rest := Rest(stream, cursor);
    if |rest| > limit {
      var results := Take(rest, limit + 1);
      assert |results| == limit + 1 && results[..limit] == rest[..limit];
      if limit > 0 { assert results[..limit][limit - 1] == rest[limit - 1]; }
    } else {
      assert Take(rest, limit + 1) == rest;
    }
  }

  /** The entry comes before the cursor. */
  predicate Older(entry: Entry, cursor: Option<nat>) {
    cursor.Some? && entry.id < cursor.value
  }

  lemma RestSplit(stream: seq<Entry>, cursor: Option<nat>, k: nat)
    requires k <= |stream| && forall i :: 0 <= i < |stream| ==> (i < k <==> Older(stream[i], cursor))
    ensures Rest(stream, cursor) == stream[k..]
  {
    assert k > 0 ==> Older(stream[0], cursor);
    assert forall i :: 0 <= i < k ==> Older(stream[i], cursor);
    if cursor.Some? { FromSplit(stream, cursor.value, k); }
  }

  lemma FrontOfRest<T>(s: seq<T>, k: nat, n: nat)
    requires k + n <= |s|
    ensures s[k..][..n] == s[k..k + n] && (n > 0 ==> s[k..][n - 1] == s[k + n - 1])
  {}

  /** Any page, from any cursor: if `k` entries are older than the cursor, the page has
      the entries behind them, up to the limit; there is more if they are more than
      that, and then the cursor is the last one shown. */
  lemma PageExact(room: string, stream: seq<Entry>, limit: nat, cursor: Option<nat>, k: nat)
    requires k <= |stream| && forall i :: 0 <= i < |stream| ==> (i < k <==> Older(stream[i], cursor))
    ensures
      var page, end := FetchHistory(room, stream, limit, cursor), if k + limit <= |stream| then k + limit else |stream|;
      && page.messages == DecodeAll(room, stream[k..end])
      && (page.hasMore <==> end < |stream|)
      && page.cursor == if page.hasMore && limit > 0 then Some(stream[end - 1].id) else None
  {
    RestSplit(stream, cursor, k);
    PageOfRest(room, stream, limit, cursor);
    if k + limit < |stream| {
      FrontOfRest(stream, k, limit);
    } else {
      assert stream[k..|stream|] == stream[k..];
    }
  }

  // ---- Following the cursors ---------------------------------------------------------------

  /** The pages a client gets, when it asks until there is no more. Every page
      leaves `limit - 1` entries less. */
  function Crawl(room: string, stream: seq<Entry>, limit: int, cursor: Option<nat>): seq<Page>
    requires Sorted(stream) && limit >= 2
    decreases |Rest(stream, cursor)|
  {
    var page := FetchHistory(room, stream, limit, cursor);
    if page.hasMore then
      FullPage(room, stream, limit, cursor);
      [page] + Crawl(room, stream, limit, page.cursor)
    else [page]
  }

  function WithoutFirst<T>(s: seq<T>): seq<T> {
    if s == [] then [] else s[1..]
  }

  function LaterPages(pages: seq<Page>): seq<Decoded> {
    if pages == [] then [] else WithoutFirst(pages[0].messages) + LaterPages(pages[1..])
  }

  /** The messages of the first page, and those of the later ones without the entry
      each repeats. */
  function Joined(pages: seq<Page>): seq<Decoded> {
    if pages == [] then [] else pages[0].messages + LaterPages(pages[1..])
  }

  lemma DecodeSplit(room: string, entries: seq<Entry>, i: nat)
    requires i <= |entries|
    ensures DecodeAll(room, entries) == DecodeAll(room, entries[..i]) + DecodeAll(room, entries[i..])
  {}

  lemma DecodeTail(room: string, entries: seq<Entry>)
    requires entries != []
    ensures WithoutFirst(DecodeAll(room, entries)) == DecodeAll(room, entries[1..])
  {
    DecodeSplit(room, entries, 1);
    BehindOne(DecodeAll(room, entries[..1]), DecodeAll(room, entries[1..]));
  }

  lemma BehindOne<T>(one: seq<T>, rest: seq<T>)
    requires |one| == 1
    ensures WithoutFirst(one + rest) == rest
  {}

  /** A page of `limit` entries and what follows its last entry, the first entry of
      both aside. */
  lemma TwoPages(room: string, entries: seq<Entry>, limit: nat)
    requires 1 <= limit < |entries|
    ensures WithoutFirst(DecodeAll(room, entries[..limit])) + DecodeAll(room, entries[limit - 1..][1..])
         == DecodeAll(room, entries[1..])
  {
    DecodeTail(room, entries[..limit]);
    assert entries[..limit][1..] == entries[1..][..limit - 1];
    assert entries[limit - 1..][1..] == entries[1..][limit - 1..];
    DecodeSplit(room, entries[1..], limit - 1);
  }

  /** What the pages from a cursor add to the page before. */
  lemma {:induction false} CrawlAdds(room: string, stream: seq<Entry>, limit: int, cursor: Option<nat>)
    requires Sorted(stream) && limit >= 2 && Rest(stream, cursor) != []
    ensures LaterPages(Crawl(room, stream, limit, cursor)) == DecodeAll(room, Rest(stream, cursor)[1..])
    decreases |Rest(stream, cursor)|
  {
    var rest, page := Rest(stream, cursor), FetchHistory(room, stream, limit, cursor);
    var pages := Crawl(room, stream, limit, cursor);
    if |rest| <= limit {
      LastPage(room, stream, limit, cursor);
      DecodeTail(room, rest);
      assert pages[1..] == [];
    } else {
      FullPage(room, stream, limit, cursor);
      CrawlAdds(room, stream, limit, page.cursor);
      assert pages[1..] == Crawl(room, stream, limit, page.cursor);
      TwoPages(room, rest, limit);
    }
  }

  /** With a limit of at least two the pages give the whole history, once the entry
      repeated at the head of every later page is dropped. */
  lemma PagesCoverHistory(room: string, stream: seq<Entry>, limit: int)
    requires Sorted(stream) && limit >= 2
    ensures Joined(Crawl(room, stream, limit, None)) == DecodeAll(room, stream)
    ensures !Crawl(room, stream, limit, None)[|Crawl(room, stream, limit, None)| - 1].hasMore
  {
    var pages := Crawl(room, stream, limit, None);
    CrawlStops(room, stream, limit, None);
    if |stream| <= limit {
      LastPage(room, stream, limit, None);
      assert pages[1..] == [];
    } else {
      var page := FetchHistory(room, stream, limit, None);
      FullPage(room, stream, limit, None);
      CrawlAdds(room, stream, limit, page.cursor);
      assert pages[1..] == Crawl(room, stream, limit, page.cursor);
      assert stream[limit - 1..][1..] == stream[limit..];
      DecodeSplit(room, stream, limit);
    }
  }

  /** Only the last page says that there is no more. */
  lemma {:induction false} CrawlStops(room: string, stream: seq<Entry>, limit: int, cursor: Option<nat>)
    requires Sorted(stream) && limit >= 2
    ensures
      var pages := Crawl(room, stream, limit, cursor);
      pages != [] && forall i :: 0 <= i < |pages| ==> (pages[i].hasMore <==> i < |pages| - 1)
    decreases |Rest(stream, cursor)|
  {
    if |Rest(stream, cursor)| <= limit {
      LastPage(room, stream, limit, cursor);
    } else {
      FullPage(room, stream, limit, cursor);
      CrawlStops(room, stream, limit, FetchHistory(room, stream, limit, cursor).cursor);
    }
  }

  // ---- When the crawl ends ---------------------------------------------------------------

  /** The cursor of the `k`-th request. */
  function CursorAt(room: string, stream: seq<Entry>, limit: int, k: nat): Option<nat> {
    if k == 0 then None else FetchHistory(room, stream, limit, CursorAt(room, stream, limit, k - 1)).cursor
  }

  ghost predicate Ends(room: string, stream: seq<Entry>, limit: int) {
    exists k: nat :: !FetchHistory(room, stream, limit, CursorAt(room, stream, limit, k)).hasMore
  }

  lemma {:induction false} EndsFrom(room: string, stream: seq<Entry>, limit: int, k: nat)
    requires Sorted(stream) && limit >= 2
    ensures Ends(room, stream, limit)
    decreases |Rest(stream, CursorAt(room, stream, limit, k))|
  {
    var cursor := CursorAt(room, stream, limit, k);
    if |Rest(stream, cursor)| <= limit {
      LastPage(room, stream, limit, cursor);
    } else {
      FullPage(room, stream, limit, cursor);
      assert CursorAt(room, stream, limit, k + 1) == FetchHistory(room, stream, limit, cursor).cursor;
      EndsFrom(room, stream, limit, k + 1);
    }
  }

  /** With limit 0 or 1 and more entries than that, every page starts at the first
      entry again. */
  lemma {:induction false} Repeats(room: string, stream: seq<Entry>, limit: int, k: nat)
    requires Sorted(stream) && 0 <= limit <= 1 && limit < |stream|
    ensures
      var cursor := CursorAt(room, stream, limit, k);
      && Rest(stream, cursor) == stream
      && FetchHistory(room, stream, limit, cursor).hasMore
      && FetchHistory(room, stream, limit, cursor).messages == DecodeAll(room, stream[..limit])
  {
    if k > 0 { Repeats(room, stream, limit, k - 1); }
    var cursor := CursorAt(room, stream, limit, k);
    if limit == 1 {
      if k > 0 { FullPage(room, stream, limit, CursorAt(room, stream, limit, k - 1)); }
      FullPage(room, stream, limit, cursor);
    } else {
      assert Rest(stream, cursor) == stream;
    }
  }

  /** Following the cursors comes to an end if and only if the limit is at least
      two, or negative, or the whole stream fits on one page. */
  lemma EndsExact(room: string, stream: seq<Entry>, limit: int)
    requires Sorted(stream)
    ensures Ends(room, stream, limit) <==> limit >= 2 || limit < 0 || |stream| <= limit
  {
    if limit >= 2 {
      EndsFrom(room, stream, limit, 0);
    } else if limit < 0 || |stream| <= limit {
      assert !FetchHistory(room, stream, limit, CursorAt(room, stream, limit, 0)).hasMore;
    } else {
      forall k: nat ensures FetchHistory(room, stream, limit, CursorAt(room, stream, limit, k)).hasMore {
        Repeats(room, stream, limit, k);
      }
    }
  }

  // ---- From publication to history ------------------------------------------------------------

  /** The stream that publishing `messages` leaves behind. */
  ghost predicate StreamOf(stream: seq<Entry>, messages: seq<Message>) {
    && Sorted(stream) && |stream| == |messages|
    && forall i :: 0 <= i < |stream| ==> stream[i].fields == Encode(messages[i])
  }

  function EraseAll(messages: seq<Message>): seq<Decoded> {
    seq(|messages|, i requires 0 <= i < |messages| => Erase(messages[i]))
  }

  lemma StreamDecodes(room: string, stream: seq<Entry>, messages: seq<Message>)
    requires StreamOf(stream, messages)
    ensures DecodeAll(room, stream) == EraseAll(messages)
  {
    forall i | 0 <= i < |stream| ensures DecodeAll(room, stream)[i] == Erase(messages[i]) {
      RoundTrip(messages[i], stream[i].name, room);
    }
  }

  /** Paging through a room gives every message published to it, in order, up to
      what the encoding drops. */
  lemma HistoryIsWhatWasPublished(room: string, stream: seq<Entry>, messages: seq<Message>, limit: int)
    requires StreamOf(stream, messages) && limit >= 2
    ensures Joined(Crawl(room, stream, limit, None)) == EraseAll(messages)
  {
    PagesCoverHistory(room, stream, limit);
    StreamDecodes(room, stream, messages);
  }

  lemma {:induction false} ReversedAppend<T>(s: seq<T>, t: seq<T>)
    ensures Reversed(s + t) == Reversed(t) + Reversed(s)
  {
    if s == [] {
      assert s + t == t;
    } else {
      assert (s + t)[1..] == s[1..] + t;
      ReversedAppend(s[1..], t);
    }
  }

  lemma {:induction false} ReversedTwice<T>(s: seq<T>)
    ensures Reversed(Reversed(s)) == s && |Reversed(s)| == |s|
  {
    if s != [] {
      ReversedTwice(s[1..]);
      ReversedAppend(Reversed(s[1..]), [s[0]]);
      assert Reversed([s[0]]) == [s[0]];
    }
  }

  lemma EndOfReversed<T>(s: seq<T>, n: nat)
    requires n <= |s|
    ensures Take(Reversed(s), n) == Reversed(s[|s| - n..])
    ensures Reversed(Take(Reversed(s), n)) == s[|s| - n..]
  {
    var older, recent := s[..|s| - n], s[|s| - n..];
    assert s == older + recent;
    ReversedAppend(older, recent);
    ReversedTwice(recent);
  }

  /** The last entries, at most `count` of them. */
  function Newest<T>(s: seq<T>, count: nat): seq<T> {
    if count <= |s| then s[|s| - count..] else s
  }

  lemma RecentEntries<T>(s: seq<T>, count: nat)
    ensures Reversed(Take(Reversed(s), count)) == Newest(s, count)
  {
    ReversedTwice(s);
    if count <= |s| {
      EndOfReversed(s, count);
    } else {
      assert Take(Reversed(s), count) == Reversed(s);
    }
  }

  lemma StreamOfNewest(stream: seq<Entry>, messages: seq<Message>, count: nat)
    requires StreamOf(stream, messages)
    ensures StreamOf(Newest(stream, count), Newest(messages, count))
  {
    if count <= |stream| {
      var from := |stream| - count;
      forall i, j | 0 <= i < j < count ensures stream[from..][i].id < stream[from..][j].id {
        assert stream[from + i].id < stream[from + j].id;
      }
      forall i | 0 <= i < count ensures stream[from..][i].fields == Encode(messages[from..][i]) {
        assert stream[from + i].fields == Encode(messages[from + i]);
      }
    }
  }

  /** The recent messages are the last ones published, oldest first. */
  lemma RecentIsTheEnd(room: string, stream: seq<Entry>, messages: seq<Message>, count: nat)
    requires StreamOf(stream, messages)
    ensures GetRecentMessages(room, stream, count) == EraseAll(Newest(messages, count))
  {
    RecentEntries(stream, count);
    StreamOfNewest(stream, messages, count);
    StreamDecodes(room, Newest(stream, count), Newest(messages, count));
  }
}
