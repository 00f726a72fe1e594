/** list_invoices: cursor pagination over the collection in (created_at, _id) order. */
module Pagination {
  import opened Base
  import opened Decimal
  import opened Settlement
  import opened Sorting
  import opened Invoices
  import opened Collection
  import opened Amounts

  /** The sort key; ids are unique, so it is too. */
  datatype Key = Key(createdAt: Time, id: Id)

  function KeyOf(inv: Invoice): Key { Key(inv.createdAt, inv.id) }

  predicate Before(a: Key, b: Key) { a.createdAt < b.createdAt || (a.createdAt == b.createdAt && a.id < b.id) }

  function KeyOrder(): (less: (Key, Key) -> bool)
    ensures StrictOrder(less)
    ensures forall a, b :: less(a, b) <==> Before(a, b)
  {
    (a: Key, b: Key) => Before(a, b)
  }

  ghost predicate InOrder(keys: seq<Key>) { forall i, j :: 0 <= i < j < |keys| ==> Before(keys[i], keys[j]) }

  // ---------- the query ----------

  /** The query document: optional equality on state and cust_id, and the cursor's $or. */
  datatype Query = Query(state: Option<InvoiceState>, custId: Option<string>, after: Option<Key>)

  predicate Selected(q: Query, inv: Invoice) {
    && (q.state.Some? ==> inv.state == q.state.value)
    && (q.custId.Some? ==> inv.custId == q.custId)
    && (q.after.Some? ==>
          || inv.createdAt > q.after.value.createdAt
          || (inv.createdAt == q.after.value.createdAt && inv.id > q.after.value.id))
  }

  function SelectedKeys(docs: Docs, q: Query): set<Key> {
    set id | id in docs && Selected(q, docs[id]) :: KeyOf(docs[id])
  }

  /** All keys the query selects, in sort order. */
  function Listing(docs: Docs, q: Query): (keys: seq<Key>)
    ensures InOrder(keys)
    ensures forall k :: k in keys <==> k in SelectedKeys(docs, q)
  {
    var keys := Sorted(SelectedKeys(docs, q), KeyOrder());
    assert forall i, j :: 0 <= i < j < |keys| ==> KeyOrder()(keys[i], keys[j]);
    keys
  }

  /** find(query).sort(...).limit(n). */
  function Found(docs: Docs, q: Query, n: nat): (rows: seq<Invoice>)
    requires KeyedById(docs)
    ensures |rows| == Min(n, |Listing(docs, q)|)
    ensures forall i :: 0 <= i < |rows| ==>
      rows[i].id in docs && docs[rows[i].id] == rows[i] && KeyOf(rows[i]) == Listing(docs, q)[i]
  {
    var keys := Listing(docs, q);
    assert forall i :: 0 <= i < |keys| ==> keys[i] in keys;
    seq(Min(n, |keys|), i requires 0 <= i < Min(n, |keys|) => docs[keys[i].id])
  }

  // ---------- the listing beyond a cursor ----------

  function Past(after: Option<Key>): Key -> bool { (k: Key) => after.None? || Before(after.value, k) }

  /** The part of a listing a cursor leaves to show. */
  function Rest(keys: seq<Key>, after: Option<Key>): seq<Key> { Filter(keys, Past(after)) }

  /** The $or of the query is exactly the strict successors of the cursor in sort order. */
  lemma CursorSelectsSuccessors(docs: Docs, q: Query)
    requires KeyedById(docs)
    ensures Listing(docs, q) == Rest(Listing(docs, q.(after := None)), q.after)
  {
    var all := Listing(docs, q.(after := None));
    var rest := Rest(all, q.after);
    FilterKeepsOrder(all, Past(q.after));
    forall k ensures k in Listing(docs, q) <==> k in rest {
      if k in rest {
        assert k in all && Past(q.after)(k);
      }
      if k in Listing(docs, q) {
        assert k in SelectedKeys(docs, q.(after := None)) && k in all && Past(q.after)(k);
      }
    }
    InOrderUnique(Listing(docs, q), rest);
  }

  lemma InOrderUnique(a: seq<Key>, b: seq<Key>)
    requires InOrder(a) && InOrder(b) && forall k :: k in a <==> k in b
    ensures a == b
  {
    assert Increasing(a, KeyOrder()) && Increasing(b, KeyOrder());
    IncreasingUnique(a, b, KeyOrder());
  }

  lemma {:induction false} FilterKeepsOrder(keys: seq<Key>, p: Key -> bool)
    requires InOrder(keys)
    ensures InOrder(Filter(keys, p))
  {
    if keys != [] {
      FilterKeepsOrder(keys[1..], p);
      var rest := Filter(keys[1..], p);
      forall j | 0 <= j < |rest| ensures Before(keys[0], rest[j]) {
        assert rest[j] in keys[1..];
      }
    }
  }

  /** Beyond the k-th key lies exactly what follows it. */
  lemma {:induction false} RestIsSuffix(keys: seq<Key>, k: nat)
    requires InOrder(keys) && k < |keys|
    ensures Rest(keys, Some(keys[k])) == keys[k + 1..]
  {
    var past := Past(Some(keys[k]));
    assert keys == keys[..k + 1] + keys[k + 1..];
    FilterConcat(keys[..k + 1], keys[k + 1..], past);
    FilterNone(keys[..k + 1], past);
    FilterAll(keys[k + 1..], past);
  }

  // ---------- following the cursors ----------

  /** One page of a listing and the cursor to the next: None when nothing is left. */
  datatype Page = Page(keys: seq<Key>, next: Option<Key>)

  function PageOf(keys: seq<Key>, limit: nat, after: Option<Key>): Page
    requires limit > 0
  {
    var rest := Rest(keys, after);
    if |rest| > limit then Page(rest[..limit], Some(rest[limit - 1])) else Page(rest, None)
  }

  lemma {:induction false} FilterShrinks(keys: seq<Key>, p: Key -> bool, q: Key -> bool, x: Key)
    requires forall k :: q(k) ==> p(k)
    ensures |Filter(keys, q)| <= |Filter(keys, p)|
    ensures x in keys && p(x) && !q(x) ==> |Filter(keys, q)| < |Filter(keys, p)|
  {
    if keys != [] {
      FilterShrinks(keys[1..], p, q, x);
      assert x in keys ==> x == keys[0] || x in keys[1..];
    }
  }

  /** A next cursor leaves less to show. */
  lemma NextShrinks(keys: seq<Key>, limit: nat, after: Option<Key>)
    requires limit > 0 && PageOf(keys, limit, after).next.Some?
    ensures |Rest(keys, PageOf(keys, limit, after).next)| < |Rest(keys, after)|
  {
    var last := Rest(keys, after)[limit - 1];
    assert last in Rest(keys, after);
    FilterShrinks(keys, Past(after), Past(Some(last)), last);
  }

  /** The pages a client gets by following next_cursor. */
  function Walk(keys: seq<Key>, limit: nat, after: Option<Key>): (pages: seq<seq<Key>>)
    requires limit > 0
    decreases |Rest(keys, after)|
  {
    var page := PageOf(keys, limit, after);
    if page.next.None? then [page.keys]
    else
      NextShrinks(keys, limit, after);
      [page.keys] + Walk(keys, limit, page.next)
  }

  function Flatten(pages: seq<seq<Key>>): seq<Key> { if pages == [] then [] else pages[0] + Flatten(pages[1..]) }

  function PagesFor(n: nat, limit: nat): nat
    requires limit > 0
  {
    Max(1, CeilDiv(n, limit))
  }

  lemma OnePageLess(n: nat, limit: nat)
    requires limit > 0 && n > limit
    ensures PagesFor(n, limit) == 1 + PagesFor(n - limit, limit)
  {
    var q := CeilDiv(n - limit, limit);
    assert (q + 1) * limit == q * limit + limit && (q - 1) * limit == q * limit - limit;
    CeilDivUnique(n, limit, q + 1);
  }

  /** The walk from a cursor that leaves the keys from p on. */
  lemma {:induction false} WalkFrom(keys: seq<Key>, limit: nat, after: Option<Key>, p: nat, pages: seq<seq<Key>>)
    requires InOrder(keys) && limit > 0 && p <= |keys| && Rest(keys, after) == keys[p..]
    requires pages == Walk(keys, limit, after)
    ensures Flatten(pages) == keys[p..] && |pages| == PagesFor(|keys| - p, limit)
    decreases |keys| - p
  {
    if |keys| - p > limit {
      var next := Some(keys[p + limit - 1]);
      FullPage(keys, limit, after, p, next);
      RestIsSuffix(keys, p + limit - 1);
      var rest := Walk(keys, limit, next);
      WalkFrom(keys, limit, next, p + limit, rest);
      OnePageLess(|keys| - p, limit);
      PageThenRest(keys, p, p + limit, rest);
    } else {
      LastPage(keys, limit, after, p);
      FlattenFirst(keys[p..], []);
      SmallListing(|keys| - p, limit);
    }
  }

  lemma PageThenRest(keys: seq<Key>, p: nat, q: nat, pages: seq<seq<Key>>)
    requires p <= q <= |keys| && Flatten(pages) == keys[q..]
    ensures Flatten([keys[p..q]] + pages) == keys[p..]
  {
    FlattenFirst(keys[p..q], pages);
    assert keys[p..q] + keys[q..] == keys[p..];
  }

  lemma FullPage(keys: seq<Key>, limit: nat, after: Option<Key>, p: nat, next: Option<Key>)
    requires limit > 0 && p + limit < |keys| && Rest(keys, after) == keys[p..] && next == Some(keys[p + limit - 1])
    ensures Walk(keys, limit, after) == [keys[p..p + limit]] + Walk(keys, limit, next)
  {
    assert keys[p..][..limit] == keys[p..p + limit];
    assert PageOf(keys, limit, after) == Page(keys[p..p + limit], next);
  }

  lemma LastPage(keys: seq<Key>, limit: nat, after: Option<Key>, p: nat)
    requires limit > 0 && p <= |keys| <= p + limit && Rest(keys, after) == keys[p..]
    ensures Walk(keys, limit, after) == [keys[p..]] + []
  {
  }

  lemma FlattenFirst(page: seq<Key>, pages: seq<seq<Key>>)
    ensures Flatten([page] + pages) == page + Flatten(pages)
  {
    assert ([page] + pages)[1..] == pages;
  }

  lemma SmallListing(n: nat, limit: nat)
    requires limit > 0 && n <= limit
    ensures PagesFor(n, limit) == 1
  {
    if n > 0 {
      CeilDivUnique(n, limit, 1);
    } else {
      CeilDivUnique(n, limit, 0);
    }
  }

  /**
   * Following next_cursor from the start over a fixed collection shows the filtered listing in order, each invoice
   * once and none missing, in ceil(n/limit) pages, or one when there is nothing to list.
   */
  lemma PagesPartitionListing(docs: Docs, q: Query, limit: nat)
    requires limit > 0 && q.after.None?
    ensures var keys := Listing(docs, q); var pages := Walk(keys, limit, None);
      Flatten(pages) == keys && |pages| == PagesFor(|keys|, limit)
  {
    var keys := Listing(docs, q);
    FilterAll(keys, Past(None));
    WalkFrom(keys, limit, None, 0, Walk(keys, limit, None));
  }

  /** The invoice meets the filters of the request. */
  predicate Meets(inv: Invoice, state: Option<InvoiceState>, custId: Option<string>) {
    (state.Some? ==> inv.state == state.value) && (custId.Some? ==> inv.custId == Some(custId.value))
  }

  lemma ListingMeets(docs: Docs, state: Option<InvoiceState>, custId: Option<string>, k: Key)
    requires KeyedById(docs)
    ensures k in Listing(docs, Query(state, custId, None)) <==>
      k.id in docs && docs[k.id].createdAt == k.createdAt && Meets(docs[k.id], state, custId)
  {
    var q := Query(state, custId, None);
    if k.id in docs && docs[k.id].createdAt == k.createdAt && Meets(docs[k.id], state, custId) {
      assert Selected(q, docs[k.id]) && KeyOf(docs[k.id]) == k;
      assert k in SelectedKeys(docs, q);
    }
  }

  lemma InOrderOnce(keys: seq<Key>, k: Key)
    requires InOrder(keys) && k in keys
    ensures multiset(keys)[k] == 1
  {
    var i :| 0 <= i < |keys| && keys[i] == k;
    assert keys == keys[..i] + [k] + keys[i + 1..];
    assert k !in keys[..i] && k !in keys[i + 1..];
  }

  /**
   * The pages of a walk, all together: every stored invoice that meets the filters exactly once, no other, by creation
   * time and among equal times by id.
   */
  lemma WalkShowsExactly(docs: Docs, state: Option<InvoiceState>, custId: Option<string>, limit: nat)
      returns (shown: seq<Key>)
    requires KeyedById(docs) && limit > 0
    ensures shown == Flatten(Walk(Listing(docs, Query(state, custId, None)), limit, None))
    ensures forall id :: id in docs ==>
      multiset(shown)[Key(docs[id].createdAt, id)] == if Meets(docs[id], state, custId) then 1 else 0
    ensures forall k :: k in shown ==> k.id in docs && docs[k.id].createdAt == k.createdAt
    ensures forall i, j :: 0 <= i < j < |shown| ==>
      shown[i].createdAt < shown[j].createdAt || (shown[i].createdAt == shown[j].createdAt && shown[i].id < shown[j].id)
  {
    var q := Query(state, custId, None);
    PagesPartitionListing(docs, q, limit);
    shown := Listing(docs, q);
    forall id | id in docs
      ensures multiset(shown)[Key(docs[id].createdAt, id)] == if Meets(docs[id], state, custId) then 1 else 0
    {
      var k := Key(docs[id].createdAt, id);
      ListingMeets(docs, state, custId, k);
      if k in shown {
        InOrderOnce(shown, k);
      }
    }
    forall k | k in shown ensures k.id in docs && docs[k.id].createdAt == k.createdAt {
      ListingMeets(docs, state, custId, k);
    }
  }

  // ---------- the cursor text ----------

  /** Python's isoformat/fromisoformat and the ObjectId text, which this model does not look into. */
  datatype Codec = Codec(
    iso: Time -> string,
    fromIso: string -> Option<Time>,
    hex: Id -> string,
    fromHex: string -> Option<Id>
  )

  /** What is taken for granted about them: they invert, and a printed UTC timestamp has neither '|' nor 'Z'. */
  ghost predicate Faithful(c: Codec) {
    && (forall t :: c.fromIso(c.iso(t)) == Some(t) && '|' !in c.iso(t) && 'Z' !in c.iso(t))
    && (forall id :: c.fromHex(c.hex(id)) == Some(id))
  }

  /** str.replace("Z", "+00:00"). */
  function ReplaceZ(s: string): string {
    if s == "" then "" else (if s[0] == 'Z' then "+00:00" else [s[0]]) + ReplaceZ(s[1..])
  }

  lemma {:induction false} NothingToReplace(s: string)
    requires 'Z' !in s
    ensures ReplaceZ(s) == s
  {
    if s != "" {
      assert s == [s[0]] + s[1..];
      NothingToReplace(s[1..]);
    }
  }

  function PrintCursor(c: Codec, k: Key): string { c.iso(k.createdAt) + "|" + c.hex(k.id) }

  datatype SplitResult = Split(createdAt: Time, idText: string) | InvalidCursor

  /** _split_cursor: split at the first bar; without one, or with a timestamp that does not parse, 400. */
  function SplitCursor(c: Codec, cursor: string): SplitResult {
    var bar := IndexOfChar(cursor, '|');
    if bar == |cursor| then InvalidCursor
    else
      var created := c.fromIso(ReplaceZ(cursor[..bar]));
      if created.None? then InvalidCursor else Split(created.value, cursor[bar + 1..])
  }

  /** A printed cursor splits back into its two parts. */
  lemma CursorRoundTrip(c: Codec, k: Key)
    requires Faithful(c)
    ensures SplitCursor(c, PrintCursor(c, k)) == Split(k.createdAt, c.hex(k.id))
    ensures c.fromHex(c.hex(k.id)) == Some(k.id)
  {
    var head := c.iso(k.createdAt);
    var text := PrintCursor(c, k);
    IndexOfFirst(head, '|', c.hex(k.id));
    assert text[..|head|] == head && text[|head| + 1..] == c.hex(k.id);
    NothingToReplace(head);
  }

  // ---------- the endpoint ----------

  datatype ListResult = Listed(items: seq<Invoice>, nextCursor: Option<string>) | BadRequest | NotFound

  datatype CursorResult = At(after: Option<Key>) | Unsplittable | UnknownId

  /** How the endpoint reads its cursor argument; an empty string counts as none. */
  function ReadCursor(c: Codec, cursor: Option<string>): CursorResult {
    if cursor.None? || cursor.value == "" then At(None)
    else match SplitCursor(c, cursor.value)
      case InvalidCursor => Unsplittable
      case Split(createdAt, idText) =>
        var id := c.fromHex(idText);
        if id.None? then UnknownId else At(Some(Key(createdAt, id.value)))
  }

  /**
   * How the endpoint reads a cursor: a non-empty one is refused with 400 exactly if it has no bar, or the text before
   * the first bar is no timestamp once a Z is written out; with 404 exactly if what follows is no id.
   */
  lemma CursorReadExactly(c: Codec, head: string, tail: string)
    requires '|' !in head
    ensures head != "" ==> ReadCursor(c, Some(head)) == Unsplittable
    ensures ReadCursor(c, None) == ReadCursor(c, Some("")) == At(None)
    ensures ReadCursor(c, Some(head + "|" + tail))
         == if c.fromIso(ReplaceZ(head)).None? then Unsplittable
            else if c.fromHex(tail).None? then UnknownId
            else At(Some(Key(c.fromIso(ReplaceZ(head)).value, c.fromHex(tail).value)))
  {
    var s := head + "|" + tail;
    IndexOfFirst(head, '|', tail);
    IndexOfNone(head, '|');
    assert s[..|head|] == head && s[|head| + 1..] == tail;
  }

  /** Every Z is written out as the offset of UTC. */
  lemma {:induction false} ReplacesEveryZ(a: string, b: string)
    ensures ReplaceZ(a + "Z" + b) == ReplaceZ(a) + "+00:00" + ReplaceZ(b)
  {
    if a == "" {
      assert a + "Z" + b == "Z" + b;
    } else {
      assert a + "Z" + b == [a[0]] + (a[1..] + "Z" + b);
      ReplacesEveryZ(a[1..], b);
    }
  }

  function KeysOf(rows: seq<Invoice>): (keys: seq<Key>)
    ensures |keys| == |rows|
  {
    MapSeq(rows, KeyOf)
  }

  lemma FoundIsPage(docs: Docs, q: Query, limit: nat, rows: seq<Invoice>)
    requires KeyedById(docs) && limit > 0 && rows == Found(docs, q, limit + 1)
    ensures var page := PageOf(Listing(docs, q.(after := None)), limit, q.after);
      && KeysOf(rows[..Min(limit, |rows|)]) == page.keys
      && page.next == if |rows| > limit then Some(KeyOf(rows[limit - 1])) else None
  {
    CursorSelectsSuccessors(docs, q);
    RowsArePage(rows, Listing(docs, q.(after := None)), Listing(docs, q), limit, q.after);
  }

  lemma RowsArePage(rows: seq<Invoice>, keys: seq<Key>, rest: seq<Key>, limit: nat, after: Option<Key>)
    requires limit > 0 && rest == Rest(keys, after) && |rows| == Min(limit + 1, |rest|)
    requires forall i :: 0 <= i < |rows| ==> KeyOf(rows[i]) == rest[i]
    ensures KeysOf(rows[..Min(limit, |rows|)]) == PageOf(keys, limit, after).keys
    ensures PageOf(keys, limit, after).next == if |rows| > limit then Some(KeyOf(rows[limit - 1])) else None
  {
    var shown := rows[..Min(limit, |rows|)];
    assert forall i :: 0 <= i < |shown| ==> KeysOf(shown)[i] == rest[i];
    assert KeysOf(shown) == rest[..|shown|];
  }

  lemma FoundMeets(docs: Docs, q: Query, n: nat)
    requires KeyedById(docs)
    ensures forall inv :: inv in Found(docs, q, n) ==>
      inv.id in docs && docs[inv.id] == inv && Meets(inv, q.state, q.custId)
  {
    var rows, keys := Found(docs, q, n), Listing(docs, q);
    forall inv | inv in rows ensures inv.id in docs && docs[inv.id] == inv && Meets(inv, q.state, q.custId) {
      var i :| 0 <= i < |rows| && rows[i] == inv;
      assert keys[i] in keys && keys[i] in SelectedKeys(docs, q);
    }
  }

  /** The items are stored, meet the filters, and are the page after the cursor; the next cursor is that page's. */
  ghost predicate Lists(docs: Docs, c: Codec, state: Option<InvoiceState>, custId: Option<string>, limit: nat,
                        after: Option<Key>, items: seq<Invoice>, nextCursor: Option<string>)
    requires limit > 0
  {
    && (forall inv :: inv in items ==> inv.id in docs && docs[inv.id] == inv && Meets(inv, state, custId))
    && var page := PageOf(Listing(docs, Query(state, custId, None)), limit, after);
    && KeysOf(items) == page.keys
    && nextCursor == if page.next.Some? then Some(PrintCursor(c, page.next.value)) else None
  }

  lemma FoundIsListed(docs: Docs, c: Codec, state: Option<InvoiceState>, custId: Option<string>, limit: nat,
                      after: Option<Key>, rows: seq<Invoice>, items: seq<Invoice>, nextCursor: Option<string>)
    requires KeyedById(docs) && limit > 0 && rows == Found(docs, Query(state, custId, after), limit + 1)
    requires items == (if |rows| > limit then rows[..limit] else rows)
    requires nextCursor == if |rows| > limit then Some(PrintCursor(c, KeyOf(rows[limit - 1]))) else None
    ensures Lists(docs, c, state, custId, limit, after, items, nextCursor)
  {
    assert items == rows[..Min(limit, |rows|)];
    var q := Query(state, custId, after);
    FoundMeets(docs, q, limit + 1);
    FoundIsPage(docs, q, limit, rows);
    assert q.(after := None) == Query(state, custId, None);
  }

  /** list_invoices: one row more than the page is fetched, to know whether there is a next one. */
  method ListInvoices(mongo: InvoiceCollection, c: Codec, state: Option<InvoiceState>, custId: Option<string>,
                      limit: nat, cursor: Option<string>)
      returns (result: ListResult)
    requires mongo.Valid() && 1 <= limit <= 200
    ensures result.BadRequest? <==> ReadCursor(c, cursor).Unsplittable?
    ensures result.NotFound? <==> ReadCursor(c, cursor).UnknownId?
    ensures result.Listed? ==>
      Lists(mongo.docs, c, state, custId, limit, ReadCursor(c, cursor).after, result.items, result.nextCursor)
  {
    var read := ReadCursor(c, cursor);
    if read.Unsplittable? {
      return BadRequest;
    }
    if read.UnknownId? {
      return NotFound;
    }
    var rows := Found(mongo.docs, Query(state, custId, read.after), limit + 1);
    var items := rows;
    var nextCursor: Option<string> := None;
    if |rows| > limit {
      var last := rows[limit - 1];
      items := rows[..limit];
      nextCursor := Some(PrintCursor(c, KeyOf(last)));
    }
    FoundIsListed(mongo.docs, c, state, custId, limit, read.after, rows, items, nextCursor);
    return Listed(items, nextCursor);
  }

  /** The cursor a page prints leads the endpoint to the page that follows it. */
  lemma NextCursorLeadsOn(c: Codec, keys: seq<Key>, limit: nat, after: Option<Key>)
    requires Faithful(c) && limit > 0 && PageOf(keys, limit, after).next.Some?
    ensures ReadCursor(c, Some(PrintCursor(c, PageOf(keys, limit, after).next.value)))
         == At(PageOf(keys, limit, after).next)
  {
    CursorRoundTrip(c, PageOf(keys, limit, after).next.value);
  }
}
