/** Inventory pages: what one page offers, and what a walk over the pages offers while the store
    keeps changing. */
module Inventory {
  import opened Bytes
  import opened Finite
  import opened Listing
  import opened KeyCodec
  import opened Store
  import opened Replication
  import opened Replica

  const MAX_PAGE_SIZE: nat := 128

  datatype Entry = Entry(id: Text, digest: Text)

  datatype Page = Page(entries: seq<Entry>, next: Text, done: bool)

  /** The index positions of the visible IDs behind a cursor; the empty cursor is the start. */
  ghost function Behind(m: map<Ref, Event>, network: Text, cursor: Text): set<Text> {
    set r | r in Visible(m, network) && (cursor == [] || Less(cursor, Encode(r.id))) :: Encode(r.id)
  }

  ghost predicate Names(entries: seq<Entry>, id: Text) {
    exists i :: 0 <= i < |entries| && entries[i].id == id
  }

  ghost predicate IdsAscend(entries: seq<Entry>) {
    forall i, j :: 0 <= i < j < |entries| ==> Less(entries[i].id, entries[j].id)
  }

  function Min(a: nat, b: nat): nat {
    if a <= b then a else b
  }

  /** A page holds the first positions ahead of the cursor, sorted by ID and with their digests. */
  ghost predicate IsPage(h: Hashes, m: map<Ref, Event>, network: Text, cursor: Text, limit: nat, page: Page) {
    var all := Ascending(Behind(m, network, cursor));
    var k := Min(|all|, limit);
    && page.done == (|all| <= limit)
    && page.next == (if k == 0 then [] else all[k - 1])
    && |page.entries| == k
    && IdsAscend(page.entries)
    && Lists(page.entries, all[..k])
    && Describes(h, Visible(m, network), network, page.entries)
  }

  /** The entries are those of the given index positions. */
  ghost predicate Lists(entries: seq<Entry>, positions: seq<Text>) {
    forall id :: Names(entries, id) <==> Encode(id) in positions
  }

  /** Each entry carries the digest of the envelope shown under its ID. */
  ghost predicate Describes(h: Hashes, shown: map<Ref, Event>, network: Text, entries: seq<Entry>) {
    forall i :: 0 <= i < |entries| ==>
      Ref(network, entries[i].id) in shown && entries[i].digest == h.digest(shown[Ref(network, entries[i].id)])
  }

  /****** One page ******/

  predicate IsDigest(t: Text) {
    Decode(t).Value? && |Decode(t).bytes| == 32
  }

  /** What the receiver of a page demands of its entries (validateInventoryEntries). */
  ghost predicate ValidEntries(entries: seq<Entry>) {
    && 0 < |entries| <= MAX_PAGE_SIZE
    && IdsAscend(entries)
    && (forall i :: 0 <= i < |entries| ==> entries[i].id != [] && IsDigest(entries[i].digest))
  }

  /** Every non-empty page an honest node sends is accepted, although pages follow the key order and
      the receiver wants the ID order. */
  lemma HonestPageAccepted(h: Hashes, history: set<Event>, m: map<Ref, Event>, network: Text, cursor: Text, limit: nat,
      page: Page)
    requires IsPage(h, m, network, cursor, limit, page) && 0 < limit <= MAX_PAGE_SIZE && page.entries != []
    requires Holds(m, history) && Identified(m) && forall e :: e in history ==> IsDigest(h.digest(e))
    ensures ValidEntries(page.entries)
  {
    forall i | 0 <= i < |page.entries| ensures page.entries[i].id != [] && IsDigest(page.entries[i].digest) {
      var r := Ref(network, page.entries[i].id);
      assert Visible(m, network)[r] == m[r];
    }
  }

  lemma MemberAt(all: seq<Text>, k: nat, p: Text)
    requires k <= |all| && p in all[..k]
    ensures exists i :: 0 <= i < k && all[i] == p
  {
  }

  /** Stored events have IDs. */
  ghost predicate Identified(m: map<Ref, Event>) {
    forall r :: r in m ==> r.id != []
  }

  lemma BehindIsAhead(m: map<Ref, Event>, network: Text, cursor: Text)
    requires Identified(m)
    ensures forall p :: p in Ascending(Behind(m, network, cursor)) ==> p != [] && (cursor == [] || Less(cursor, p))
  {
    hide Less, Encode, Superseded, Ascending;
    forall p | p in Behind(m, network, cursor) ensures p != [] && (cursor == [] || Less(cursor, p)) {
      var r :| r in Visible(m, network) && (cursor == [] || Less(cursor, Encode(r.id))) && p == Encode(r.id);
      EncodeNotEmpty(r.id);
    }
  }

  lemma EncodeNotEmpty(b: Text)
    requires b != []
    ensures Encode(b) != []
  {
  }

  /** A page advances its cursor to its own last position: everything on it lies behind the new
      cursor, and every visible ID ahead of the old cursor is on it or ahead of the new one. */
  lemma PageAdvances(h: Hashes, m: map<Ref, Event>, network: Text, cursor: Text, limit: nat, page: Page)
    requires IsPage(h, m, network, cursor, limit, page) && limit > 0 && Identified(m)
    ensures !page.done ==> page.entries != []
    ensures page.entries != [] ==> page.next != [] && (cursor == [] || Less(cursor, page.next))
    ensures forall id :: Names(page.entries, id) ==>
      (cursor == [] || Less(cursor, Encode(id))) && (Encode(id) == page.next || Less(Encode(id), page.next))
    ensures forall r: Ref :: r in Visible(m, network) && (cursor == [] || Less(cursor, Encode(r.id))) ==>
      Names(page.entries, r.id) || (!page.done && Less(page.next, Encode(r.id)))
  {
    PageBehind(h, m, network, cursor, limit, page);
    PageCovers(h, m, network, cursor, limit, page);
    BehindIsAhead(m, network, cursor);
    var all := Ascending(Behind(m, network, cursor));
    hide Names, IdsAscend, Identified;
    assert |page.entries| > 0 ==> all[Min(|all|, limit) - 1] in all;
  }

  lemma PageBehind(h: Hashes, m: map<Ref, Event>, network: Text, cursor: Text, limit: nat, page: Page)
    requires IsPage(h, m, network, cursor, limit, page) && limit > 0 && Identified(m)
    ensures forall id :: Names(page.entries, id) ==>
      (cursor == [] || Less(cursor, Encode(id))) && (Encode(id) == page.next || Less(Encode(id), page.next))
  {
    BehindIsAhead(m, network, cursor);
    hide Names, IdsAscend, Identified;
    var all := Ascending(Behind(m, network, cursor));
    var k := Min(|all|, limit);
    forall id | Names(page.entries, id)
      ensures (cursor == [] || Less(cursor, Encode(id))) && (Encode(id) == page.next || Less(Encode(id), page.next))
    {
      MemberAt(all, k, Encode(id));
      var i :| 0 <= i < k && all[i] == Encode(id);
      assert all[i] in all;
    }
  }

  lemma PageCovers(h: Hashes, m: map<Ref, Event>, network: Text, cursor: Text, limit: nat, page: Page)
    requires IsPage(h, m, network, cursor, limit, page) && limit > 0
    ensures forall r: Ref :: r in Visible(m, network) && (cursor == [] || Less(cursor, Encode(r.id))) ==>
      Names(page.entries, r.id) || (!page.done && Less(page.next, Encode(r.id)))
  {
    hide Names, IdsAscend, Visible;
    var all := Ascending(Behind(m, network, cursor));
    var k := Min(|all|, limit);
    forall r: Ref | r in Visible(m, network) && (cursor == [] || Less(cursor, Encode(r.id)))
      ensures Names(page.entries, r.id) || (!page.done && Less(page.next, Encode(r.id)))
    {
      assert Encode(r.id) in Behind(m, network, cursor);
      assert Encode(r.id) in all;
      var i :| 0 <= i < |all| && all[i] == Encode(r.id);
      if i < k {
        assert all[..k][i] == Encode(r.id);
      }
    }
  }

  /** What is on a page: as many entries as the limit unless it is the last page, sorted by ID, each of an
      event that the node holds, does not hide, and has behind the cursor, with that event's digest. The
      page is the last one exactly if nothing behind the cursor is left out, and its cursor is the
      position of one of its own entries. */
  lemma PageContents(h: Hashes, m: map<Ref, Event>, network: Text, cursor: Text, limit: nat, page: Page)
    requires IsPage(h, m, network, cursor, limit, page) && limit > 0
    ensures |page.entries| <= limit && (!page.done ==> |page.entries| == limit)
    ensures forall i, j :: 0 <= i < j < |page.entries| ==> Less(page.entries[i].id, page.entries[j].id)
    ensures forall i :: 0 <= i < |page.entries| ==>
      var r := Ref(network, page.entries[i].id);
      && r in m && r !in Superseded(m) && page.entries[i].digest == h.digest(m[r])
      && (cursor == [] || Less(cursor, Encode(r.id)))
    ensures page.done <==> forall r: Ref {:trigger r in m} ::
      r in m && r.network == network && r !in Superseded(m) && (cursor == [] || Less(cursor, Encode(r.id))) ==>
        exists i :: 0 <= i < |page.entries| && page.entries[i].id == r.id
    ensures if page.entries == [] then page.next == []
      else exists i :: 0 <= i < |page.entries| && Encode(page.entries[i].id) == page.next
  {
    hide Less, Encode, Superseded;
    var all := Ascending(Behind(m, network, cursor));
    var k := Min(|all|, limit);
    forall i | 0 <= i < |page.entries|
      ensures Ref(network, page.entries[i].id) in Visible(m, network) && Encode(page.entries[i].id) in all
    {
      assert Names(page.entries, page.entries[i].id);
      assert Encode(page.entries[i].id) in all[..k];
    }
    forall i | 0 <= i < |page.entries| ensures cursor == [] || Less(cursor, Encode(page.entries[i].id)) {
      var r :| r in Visible(m, network) && (cursor == [] || Less(cursor, Encode(r.id)))
        && Encode(r.id) == Encode(page.entries[i].id);
    }
    if page.done {
      PageLeavesNothing(h, m, network, cursor, limit, page);
    } else {
      PageLeavesOne(h, m, network, cursor, limit, page);
    }
    if page.entries != [] {
      NextIsListed(h, m, network, cursor, limit, page);
    }
  }

  lemma PageLeavesNothing(h: Hashes, m: map<Ref, Event>, network: Text, cursor: Text, limit: nat, page: Page)
    requires IsPage(h, m, network, cursor, limit, page) && page.done
    ensures forall r: Ref {:trigger r in m} ::
      r in m && r.network == network && r !in Superseded(m) && (cursor == [] || Less(cursor, Encode(r.id))) ==>
        exists i :: 0 <= i < |page.entries| && page.entries[i].id == r.id
  {
    hide Less, Encode, Superseded, IdsAscend, Describes;
    var all := Ascending(Behind(m, network, cursor));
    assert all[..|all|] == all;
    forall r: Ref |
      r in m && r.network == network && r !in Superseded(m) && (cursor == [] || Less(cursor, Encode(r.id)))
      ensures Names(page.entries, r.id)
    {
      assert r in Visible(m, network);
      assert Encode(r.id) in Behind(m, network, cursor);
    }
  }

  lemma PageLeavesOne(h: Hashes, m: map<Ref, Event>, network: Text, cursor: Text, limit: nat, page: Page)
    requires IsPage(h, m, network, cursor, limit, page) && !page.done
    ensures exists r: Ref {:trigger r in m} ::
      && r in m && r.network == network && r !in Superseded(m) && (cursor == [] || Less(cursor, Encode(r.id)))
      && forall i :: 0 <= i < |page.entries| ==> page.entries[i].id != r.id
  {
    hide Less, Encode, Superseded, IdsAscend, Describes;
    var all := Ascending(Behind(m, network, cursor));
    assert all[limit] in Behind(m, network, cursor);
    var r :| r in Visible(m, network) && (cursor == [] || Less(cursor, Encode(r.id))) && Encode(r.id) == all[limit];
    AscendsDistinct(all);
    forall i | 0 <= i < |page.entries| ensures page.entries[i].id != r.id {
      assert Names(page.entries, page.entries[i].id);
      MemberAt(all, limit, Encode(page.entries[i].id));
    }
  }

  lemma NextIsListed(h: Hashes, m: map<Ref, Event>, network: Text, cursor: Text, limit: nat, page: Page)
    requires IsPage(h, m, network, cursor, limit, page) && page.entries != []
    ensures exists i :: 0 <= i < |page.entries| && Encode(page.entries[i].id) == page.next
  {
    hide Less, Encode, Superseded, IdsAscend, Describes;
    var all := Ascending(Behind(m, network, cursor));
    var k := Min(|all|, limit);
    assert all[..k][k - 1] == page.next;
    assert page.next in Behind(m, network, cursor);
    var r :| r in Visible(m, network) && (cursor == [] || Less(cursor, Encode(r.id))) && Encode(r.id) == page.next;
    assert Names(page.entries, r.id);
  }

  /****** A walk over the pages ******/

  function CursorOf(pages: seq<Page>, k: nat): Text
    requires k <= |pages|
  {
    if k == 0 then [] else pages[k - 1].next
  }

  ghost predicate PageAt(h: Hashes, ms: seq<map<Ref, Event>>, network: Text, limit: nat, pages: seq<Page>, k: nat)
    requires k < |pages| == |ms|
  {
    Identified(ms[k]) && IsPage(h, ms[k], network, CursorOf(pages, k), limit, pages[k])
  }

  /** The k-th page is read from the state ms[k]; between pages the store may change in any way. The
      reader goes on as long as pages are not done. */
  ghost predicate Walk(h: Hashes, ms: seq<map<Ref, Event>>, network: Text, limit: nat, pages: seq<Page>) {
    && |ms| == |pages| && limit > 0
    && (forall k {:trigger PageAt(h, ms, network, limit, pages, k)} :: 0 <= k < |pages| ==>
      PageAt(h, ms, network, limit, pages, k))
    && (forall k :: 0 <= k < |pages| - 1 ==> !pages[k].done)
  }

  /** Cursors strictly increase, so the receiver's check for a non-advancing cursor never fires. */
  lemma {:induction false} CursorsIncrease(h: Hashes, ms: seq<map<Ref, Event>>, network: Text, limit: nat,
      pages: seq<Page>, k: nat, l: nat)
    requires Walk(h, ms, network, limit, pages) && k < l <= |pages| && !pages[l - 1].done
    ensures CursorOf(pages, l) != [] && (CursorOf(pages, k) == [] || Less(CursorOf(pages, k), CursorOf(pages, l)))
    decreases l
  {
    hide IsPage, Identified;
    assert PageAt(h, ms, network, limit, pages, l - 1);
    PageAdvances(h, ms[l - 1], network, CursorOf(pages, l - 1), limit, pages[l - 1]);
    if k < l - 1 {
      CursorsIncrease(h, ms, network, limit, pages, k, l - 1);
      if CursorOf(pages, k) != [] {
        LessTransitive(CursorOf(pages, k), CursorOf(pages, l - 1), CursorOf(pages, l));
      }
    }
  }

  /** No ID is offered on two pages. */
  lemma OfferedOnce(h: Hashes, ms: seq<map<Ref, Event>>, network: Text, limit: nat, pages: seq<Page>, k: nat, l: nat,
      id: Text)
    requires Walk(h, ms, network, limit, pages) && k < l < |pages|
    requires Names(pages[k].entries, id)
    ensures !Names(pages[l].entries, id)
  {
    hide IsPage, Identified, Names, Less, Encode;
    assert PageAt(h, ms, network, limit, pages, k) && PageAt(h, ms, network, limit, pages, l);
    PageAdvances(h, ms[k], network, CursorOf(pages, k), limit, pages[k]);
    PageAdvances(h, ms[l], network, CursorOf(pages, l), limit, pages[l]);
    var c, p := CursorOf(pages, l), Encode(id);
    assert !pages[k].done && !pages[l - 1].done;
    var c' := CursorOf(pages, k + 1);
    if k + 1 < l {
      CursorsIncrease(h, ms, network, limit, pages, k + 1, l);
    }
    assert c' != [] && (c' == c || Less(c', c));
    assert p == c || Less(p, c) by {
      if p != c' && c' != c {
        LessTransitive(p, c', c);
      }
    }
    if p == c {
      LessIrreflexive(c);
    } else {
      LessAsymmetric(p, c);
    }
  }

  /** A finished walk offers every ID that was visible on each of its pages, whatever was inserted
      or hidden in between. */
  lemma EverythingVisibleIsOffered(h: Hashes, ms: seq<map<Ref, Event>>, network: Text, limit: nat, pages: seq<Page>,
      id: Text)
    requires Walk(h, ms, network, limit, pages) && pages != [] && pages[|pages| - 1].done
    requires forall k :: 0 <= k < |ms| ==> Ref(network, id) in Visible(ms[k], network)
    ensures exists k :: 0 <= k < |pages| && Names(pages[k].entries, id)
  {
    hide Names, Visible;
    OfferedFrom(h, ms, network, limit, pages, id, 0);
  }

  lemma {:induction false} OfferedFrom(h: Hashes, ms: seq<map<Ref, Event>>, network: Text, limit: nat,
      pages: seq<Page>, id: Text, k: nat)
    requires Walk(h, ms, network, limit, pages) && k < |pages| && pages[|pages| - 1].done
    requires forall l :: 0 <= l < |ms| ==> Ref(network, id) in Visible(ms[l], network)
    requires CursorOf(pages, k) == [] || Less(CursorOf(pages, k), Encode(id))
    ensures exists l :: 0 <= l < |pages| && Names(pages[l].entries, id)
    decreases |pages| - k
  {
    hide Names, Visible, IsPage, Identified;
    assert PageAt(h, ms, network, limit, pages, k);
    PageAdvances(h, ms[k], network, CursorOf(pages, k), limit, pages[k]);
    assert Ref(network, id) in Visible(ms[k], network);
    if !Names(pages[k].entries, id) {
      OfferedFrom(h, ms, network, limit, pages, id, k + 1);
    }
  }

  /** Every page but the last advances past a fresh position, so a walk over a store in which only
      the IDs `ids` ever appear has at most one page more than there are such IDs. */
  lemma WalkTerminates(h: Hashes, ms: seq<map<Ref, Event>>, network: Text, limit: nat, pages: seq<Page>, ids: set<Text>)
    requires Walk(h, ms, network, limit, pages)
    requires forall k, r :: 0 <= k < |ms| && r in ms[k] ==> r.id in ids
    ensures |pages| <= |ids| + 1
  {
    if |pages| > 0 {
      var firsts := FirstIds(h, ms, network, limit, pages, ids, |pages| - 1);
    }
  }

  lemma FirstId(h: Hashes, ms: seq<map<Ref, Event>>, network: Text, limit: nat, pages: seq<Page>, k: nat)
    returns (id: Text)
    requires Walk(h, ms, network, limit, pages) && k < |pages| - 1
    ensures |ms| == |pages| && Names(pages[k].entries, id) && Ref(network, id) in ms[k]
  {
    hide Identified, Visible, IdsAscend;
    assert PageAt(h, ms, network, limit, pages, k);
    PageAdvances(h, ms[k], network, CursorOf(pages, k), limit, pages[k]);
    id := pages[k].entries[0].id;
    VisibleHeld(ms[k], network, Ref(network, id));
  }

  lemma VisibleHeld(m: map<Ref, Event>, network: Text, r: Ref)
    requires r in Visible(m, network)
    ensures r in m
  {
  }

  /** One ID of each of the first n pages: they are all different. */
  lemma {:induction false} FirstIds(h: Hashes, ms: seq<map<Ref, Event>>, network: Text, limit: nat, pages: seq<Page>,
      ids: set<Text>, n: nat)
    returns (firsts: set<Text>)
    requires Walk(h, ms, network, limit, pages) && n < |pages|
    requires forall k, r :: 0 <= k < |ms| && r in ms[k] ==> r.id in ids
    ensures firsts <= ids && |firsts| == n && n <= |ids|
    ensures forall id :: id in firsts ==> exists k :: 0 <= k < n && Names(pages[k].entries, id)
    decreases n
  {
    hide Walk, Names, Visible;
    if n == 0 {
      firsts := {};
    } else {
      var rest := FirstIds(h, ms, network, limit, pages, ids, n - 1);
      var id := FirstId(h, ms, network, limit, pages, n - 1);
      if id in rest {
        var k :| 0 <= k < n - 1 && Names(pages[k].entries, id);
        OfferedOnce(h, ms, network, limit, pages, k, n - 1, id);
      }
      firsts := rest + {id};
      SubsetIsSmaller(firsts, ids);
    }
  }

  /****** Building a page ******/

  function InsertById(e: Entry, s: seq<Entry>): seq<Entry> {
    if s == [] || !Less(s[0].id, e.id) then [e] + s else [s[0]] + InsertById(e, s[1..])
  }

  /** sort.Slice by ID; the IDs of a page are distinct, so the order is determined. */
  function SortById(s: seq<Entry>): seq<Entry> {
    if s == [] then [] else InsertById(s[0], SortById(s[1..]))
  }

  ghost predicate IdsDistinct(s: seq<Entry>) {
    forall i, j :: 0 <= i < j < |s| ==> s[i].id != s[j].id
  }

  lemma {:induction false} InsertByIdKeeps(e: Entry, s: seq<Entry>)
    requires IdsAscend(s) && forall x :: x in s ==> x.id != e.id
    ensures IdsAscend(InsertById(e, s))
    ensures |InsertById(e, s)| == |s| + 1
    ensures forall x :: x in InsertById(e, s) <==> x == e || x in s
  {
    if s != [] {
      LessTotal(s[0].id, e.id);
      if Less(s[0].id, e.id) {
        InsertByIdKeeps(e, s[1..]);
        var rest := InsertById(e, s[1..]);
        assert s == [s[0]] + s[1..];
        forall j | 0 <= j < |rest| ensures Less(s[0].id, rest[j].id) {
          assert rest[j] in rest;
        }
      } else {
        forall j | 0 <= j < |s| ensures Less(e.id, s[j].id) {
          if j > 0 {
            LessTransitive(e.id, s[0].id, s[j].id);
          }
        }
      }
    }
  }

  lemma {:induction false} SortByIdSorts(s: seq<Entry>)
    requires IdsDistinct(s)
    ensures IdsAscend(SortById(s)) && |SortById(s)| == |s|
    ensures forall x :: x in SortById(s) <==> x in s
  {
    if s != [] {
      SortByIdSorts(s[1..]);
      forall x | x in SortById(s[1..]) ensures x.id != s[0].id {
        assert x in s[1..];
      }
      InsertByIdKeeps(s[0], SortById(s[1..]));
      assert s == [s[0]] + s[1..];
    }
  }

  /** What an iterator has yielded of the keys of P is the front of their ascending listing. */
  lemma FrontOfListing(P: set<Text>, got: seq<Text>)
    requires Ascends(got) && (forall p :: p in got ==> p in P)
    requires forall p, q :: p in P && p !in got && q in got ==> Less(q, p)
    ensures |got| <= |Ascending(P)| && Ascending(P)[..|got|] == got
  {
    var rest := Ascending(set p | p in P && p !in got);
    forall i, j | 0 <= i < j < |got + rest| ensures Less((got + rest)[i], (got + rest)[j]) {
      if i < |got| <= j {
        assert got[i] in got && rest[j - |got|] in rest;
      }
    }
    AscendingUnique(got + rest, Ascending(P));
  }

  /** The iterator's state: the positions it kept and the entries read at them. */
  ghost predicate Collected(h: Hashes, m: map<Ref, Event>, network: Text, got: seq<Text>, entries: seq<Entry>) {
    && |got| == |entries| && Ascends(got)
    && forall i :: 0 <= i < |got| ==>
         var r := Ref(network, entries[i].id);
         got[i] == Encode(r.id) && r in Visible(m, network) && entries[i].digest == h.digest(Visible(m, network)[r])
  }

  lemma CollectedOne(h: Hashes, m: map<Ref, Event>, network: Text, got: seq<Text>, entries: seq<Entry>, entry: Entry)
    requires Collected(h, m, network, got, entries)
    requires Ref(network, entry.id) in Visible(m, network)
    requires entry.digest == h.digest(Visible(m, network)[Ref(network, entry.id)])
    requires forall q :: q in got ==> Less(q, Encode(entry.id))
    ensures Collected(h, m, network, got + [Encode(entry.id)], entries + [entry])
  {
    forall i | 0 <= i < |got| ensures Less(got[i], Encode(entry.id)) {
      assert got[i] in got;
    }
  }

  /** The positions got come first in P, and if there are at most `limit` of them they are all of it. */
  ghost predicate IsFront(P: set<Text>, got: seq<Text>, limit: nat) {
    && |got| <= limit + 1
    && (forall p :: p in got ==> p in P)
    && (forall p, q :: p in P && p !in got && q in got ==> Less(q, p))
    && (|got| <= limit ==> forall p :: p in P ==> p in got)
  }

  /** The page made of the positions and entries that a scan kept. */
  function FrontPage(got: seq<Text>, entries: seq<Entry>, limit: nat): Page
    requires |got| == |entries|
  {
    var k := Min(|got|, limit);
    Page(SortById(entries[..k]), if k == 0 then [] else got[k - 1], |got| <= limit)
  }

  lemma PageBuilt(h: Hashes, m: map<Ref, Event>, network: Text, cursor: Text, limit: nat, got: seq<Text>,
      entries: seq<Entry>)
    requires Collected(h, m, network, got, entries) && IsFront(Behind(m, network, cursor), got, limit)
    ensures IsPage(h, m, network, cursor, limit, FrontPage(got, entries, limit))
  {
    hide Behind, Visible, IdsAscend, Lists, Describes, SortById, Less, Ascending, Encode, Ascends;
    ListingReached(Behind(m, network, cursor), got, limit);
    EntriesSorted(h, m, network, got, entries, Min(|got|, limit));
  }

  lemma ListingReached(P: set<Text>, got: seq<Text>, limit: nat)
    requires Ascends(got) && IsFront(P, got, limit)
    ensures var all := Ascending(P);
      && Min(|got|, limit) == Min(|all|, limit) && (|got| <= limit <==> |all| <= limit)
      && got[..Min(|got|, limit)] == all[..Min(|all|, limit)]
      && (Min(|got|, limit) > 0 ==> got[Min(|got|, limit) - 1] == all[Min(|all|, limit) - 1])
  {
    hide Less, Ascending;
    var all := Ascending(P);
    FrontOfListing(P, got);
    if |got| <= limit {
      AscendingUnique(got, all);
    }
    hide Ascends;
    var k := Min(|got|, limit);
    assert got[..k] == all[..|got|][..k] == all[..k];
    assert k > 0 ==> got[k - 1] == got[..k][k - 1] && all[k - 1] == all[..k][k - 1];
  }

  lemma EntriesSorted(h: Hashes, m: map<Ref, Event>, network: Text, got: seq<Text>, entries: seq<Entry>, k: nat)
    requires Collected(h, m, network, got, entries) && k <= |got|
    ensures var page := SortById(entries[..k]);
      && |page| == k && IdsAscend(page) && Lists(page, got[..k])
      && Describes(h, Visible(m, network), network, page)
  {
    hide Visible, Less, Encode, SortById;
    var front := entries[..k];
    forall i, j | 0 <= i < j < k ensures front[i].id != front[j].id {
      LessAsymmetric(got[i], got[j]);
    }
    SortByIdSorts(front);
    var page := SortById(front);
    forall id ensures Names(page, id) <==> Encode(id) in got[..k] {
      if Names(page, id) {
        var i :| 0 <= i < |page| && page[i].id == id;
        assert page[i] in front;
        var j :| 0 <= j < k && front[j] == page[i];
        assert got[..k][j] == Encode(id);
      }
      if Encode(id) in got[..k] {
        var j :| 0 <= j < k && got[j] == Encode(id);
        EncodeInjective(entries[j].id, id);
        assert front[j] in page;
      }
    }
    forall i | 0 <= i < k ensures page[i] in front {
      assert page[i] in page;
    }
  }

  /****** Comparing a page with what is held ******/

  /** The offered IDs that a replica does not hold, in the offer's order. */
  function MissingIds(s: Store, network: Text, entries: seq<Entry>): seq<Text> {
    if entries == [] then []
    else
      var last := entries[|entries| - 1];
      MissingIds(s, network, entries[..|entries| - 1]) + if Find(s, Ref(network, last.id)).Absent?
        then [last.id] else []
  }

  /** The entries offered with another digest than that of the envelope held. */
  function ConflictEntries(h: Hashes, s: Store, network: Text, entries: seq<Entry>): seq<Entry> {
    if entries == [] then []
    else
      var last := entries[|entries| - 1];
      var found := Find(s, Ref(network, last.id));
      ConflictEntries(h, s, network, entries[..|entries| - 1]) + if found.Found? && h.digest(found.event) != last.digest
        then [last] else []
  }

  function IdsOf(entries: seq<Entry>): (ids: seq<Text>)
    ensures |ids| == |entries|
  {
    seq(|entries|, i requires 0 <= i < |entries| => entries[i].id)
  }

  function ObservationsOf(network: Text, entries: seq<Entry>): set<Observation> {
    set e | e in entries :: Observation(network, e.id, e.digest)
  }

  /** What the receiver of a list of IDs demands of it (validateIDPage). */
  ghost predicate ValidIds(ids: seq<Text>) {
    0 < |ids| <= MAX_PAGE_SIZE && Distinct(ids) && forall i :: 0 <= i < |ids| ==> ids[i] != []
  }

  lemma CompareNothing(h: Hashes, s: Store, network: Text)
    ensures MissingIds(s, network, []) == [] && ConflictEntries(h, s, network, []) == []
    ensures IdsOf([]) == [] && ObservationsOf(network, []) == {}
  {
  }

  /** What one more entry adds to a comparison. */
  lemma CompareStep(h: Hashes, s: Store, network: Text, entries: seq<Entry>, i: nat)
    requires i < |entries|
    ensures var e := entries[i];
      var found := Find(s, Ref(network, e.id));
      var before, after :=
        ConflictEntries(h, s, network, entries[..i]), ConflictEntries(h, s, network, entries[..i + 1]);
      && MissingIds(s, network, entries[..i + 1])
        == MissingIds(s, network, entries[..i]) + (if found.Absent? then [e.id] else [])
      && (if found.Found? && h.digest(found.event) != e.digest
          then IdsOf(after) == IdsOf(before) + [e.id]
               && ObservationsOf(network, after) == ObservationsOf(network, before)
                 + {Observation(network, e.id, e.digest)}
          else after == before)
  {
    assert entries[..i + 1][..i] == entries[..i];
  }

  lemma {:induction false} MissingIdsExact(s: Store, network: Text, entries: seq<Entry>)
    requires Valid(s) && IdsAscend(entries)
    ensures forall id :: id in MissingIds(s, network, entries) <==> Names(entries, id) && Ref(network, id) !in Events(s)
    ensures Ascends(MissingIds(s, network, entries)) && Distinct(MissingIds(s, network, entries))
    ensures |MissingIds(s, network, entries)| <= |entries|
    decreases |entries|
  {
    hide PrimaryKeyed, IdsIndexed, ArrivalsIndexed, ClockCovers, Events;
    if entries != [] {
      var front, last := entries[..|entries| - 1], entries[|entries| - 1];
      MissingIdsExact(s, network, front);
      FindIsEvents(s, Ref(network, last.id));
      NamesStep(entries);
      forall id | id in MissingIds(s, network, front) ensures Less(id, last.id) {
        var i :| 0 <= i < |front| && front[i].id == id;
        assert Less(entries[i].id, last.id);
      }
      AscendsDistinct(MissingIds(s, network, entries));
    }
  }

  lemma NamesStep(entries: seq<Entry>)
    requires entries != []
    ensures forall id :: Names(entries, id) <==> Names(entries[..|entries| - 1], id) || id == entries[|entries| - 1].id
  {
    var front := entries[..|entries| - 1];
    forall id ensures Names(entries, id) <==> Names(front, id) || id == entries[|entries| - 1].id {
      if Names(front, id) {
        var i :| 0 <= i < |front| && front[i].id == id;
        assert entries[i].id == id;
      }
    }
  }

  lemma {:induction false} ConflictEntriesExact(h: Hashes, s: Store, network: Text, entries: seq<Entry>)
    requires Valid(s)
    ensures forall e :: e in ConflictEntries(h, s, network, entries) <==>
      e in entries && Ref(network, e.id) in Events(s) && h.digest(Events(s)[Ref(network, e.id)]) != e.digest
    decreases |entries|
  {
    hide PrimaryKeyed, IdsIndexed, ArrivalsIndexed, ClockCovers, Events;
    if entries != [] {
      var front, last := entries[..|entries| - 1], entries[|entries| - 1];
      ConflictEntriesExact(h, s, network, front);
      FindIsEvents(s, Ref(network, last.id));
      assert entries == front + [last];
    }
  }

  /****** The receiver's checks ******/

  /** validateInventoryEntries: its one pass over neighbours and its set of seen IDs decide strict
      ascent of the whole page. */
  method ValidateInventoryEntries(entries: seq<Entry>) returns (ok: bool)
    ensures ok <==> ValidEntries(entries)
    ensures ok <==>
      && 1 <= |entries| <= 128
      && (forall i, j :: 0 <= i < j < |entries| ==> Less(entries[i].id, entries[j].id))
      && (forall i :: 0 <= i < |entries| ==>
            entries[i].id != [] && Decode(entries[i].digest).Value? && |Decode(entries[i].digest).bytes| == 32)
  {
    hide Less, Decode;
    if |entries| == 0 || |entries| > MAX_PAGE_SIZE {
      return false;
    }
    var seen: set<Text> := {};
    var previous: Text := [];
    var i := 0;
    while i < |entries|
      invariant 0 <= i <= |entries|
      invariant previous == if i == 0 then [] else entries[i - 1].id
      invariant forall id :: id in seen ==> id in IdsOf(entries)[..i]
      invariant forall j, k :: 0 <= j < k < i ==> Less(entries[j].id, entries[k].id)
      invariant forall j :: 0 <= j < i ==> entries[j].id != [] && IsDigest(entries[j].digest)
    {
      var entry := entries[i];
      if entry.id == [] {
        return false;
      }
      if entry.id in seen {
        RepeatedNotAscending(entries, i);
        return false;
      }
      seen := seen + {entry.id};
      if previous != [] && !Less(previous, entry.id) {
        return false;
      }
      forall j | 0 <= j < i ensures Less(entries[j].id, entry.id) {
        if j < i - 1 {
          LessTransitive(entries[j].id, previous, entry.id);
        }
      }
      previous := entry.id;
      if !IsDigest(entry.digest) {
        return false;
      }
      assert IdsOf(entries)[..i + 1] == IdsOf(entries)[..i] + [entry.id];
      i := i + 1;
    }
    ok := true;
  }

  lemma RepeatedNotAscending(entries: seq<Entry>, i: nat)
    requires i < |entries| && entries[i].id in IdsOf(entries)[..i]
    ensures !IdsAscend(entries)
  {
    var j :| 0 <= j < i && IdsOf(entries)[j] == entries[i].id;
    LessIrreflexive(entries[i].id);
  }

  /** validateIDPage */
  method ValidateIDPage(ids: seq<Text>) returns (ok: bool)
    ensures ok <==> ValidIds(ids)
    ensures ok <==>
      && 1 <= |ids| <= 128 && (forall i :: 0 <= i < |ids| ==> ids[i] != [])
      && (forall i, j :: 0 <= i < j < |ids| ==> ids[i] != ids[j])
  {
    if |ids| == 0 || |ids| > MAX_PAGE_SIZE {
      return false;
    }
    var seen: set<Text> := {};
    var i := 0;
    while i < |ids|
      invariant 0 <= i <= |ids|
      invariant forall id :: id in seen <==> id in ids[..i]
      invariant Distinct(ids[..i]) && forall j :: 0 <= j < i ==> ids[j] != []
    {
      if ids[i] == [] {
        return false;
      }
      if ids[i] in seen {
        var j :| 0 <= j < i && ids[..i][j] == ids[i];
        assert ids[j] == ids[i];
        return false;
      }
      seen := seen + {ids[i]};
      assert ids[..i + 1] == ids[..i] + [ids[i]];
      i := i + 1;
    }
    assert ids[..i] == ids;
    ok := true;
  }

  /** The events are exactly the requested ones, in any order, all of the network. */
  ghost predicate AreRequested(network: Text, ids: seq<Text>, events: seq<Event>) {
    && multiset(EventIds(events)) == multiset(ids)
    && forall i :: 0 <= i < |events| ==> events[i].network == network
  }

  function EventIds(events: seq<Event>): (ids: seq<Text>)
    ensures |ids| == |events|
  {
    seq(|events|, i requires 0 <= i < |events| => events[i].id)
  }

  lemma RequestedMeans(network: Text, ids: seq<Text>, events: seq<Event>)
    ensures AreRequested(network, ids, events) <==>
      && multiset(seq(|events|, i requires 0 <= i < |events| => events[i].id)) == multiset(ids)
      && (forall i :: 0 <= i < |events| ==> events[i].network == network)
  {
    assert EventIds(events) == seq(|events|, i requires 0 <= i < |events| => events[i].id);
  }

  /** validateRequestedEvents: one pass that crosses off what was requested. */
  method ValidateRequestedEvents(network: Text, ids: seq<Text>, events: seq<Event>) returns (ok: bool)
    requires Distinct(ids)
    ensures ok <==> AreRequested(network, ids, events)
    ensures ok <==>
      && multiset(seq(|events|, i requires 0 <= i < |events| => events[i].id)) == multiset(ids)
      && (forall i :: 0 <= i < |events| ==> events[i].network == network)
  {
    RequestedMeans(network, ids, events);
    AsMany(network, ids, events);
    hide Distinct, AreRequested;
    if |events| != |ids| {
      return false;
    }
    var expected := set id | id in ids;
    var seen := EventIds(events);
    var i := 0;
    DistinctMultiset(ids);
    while i < |events|
      invariant 0 <= i <= |events|
      invariant multiset(seen[..i]) + multiset(expected) == multiset(ids)
      invariant forall j :: 0 <= j < i ==> events[j].network == network
    {
      if events[i].network != network {
        return false;
      }
      assert seen[..i + 1] == seen[..i] + [seen[i]];
      if events[i].id !in expected {
        Unrequested(seen, ids, i);
        return false;
      }
      expected := expected - {events[i].id};
      i := i + 1;
    }
    assert seen[..i] == seen;
    assert |multiset(seen)| + |multiset(expected)| == |multiset(ids)|;
    if expected != {} {
      return false;
    }
    ok := true;
  }

  lemma AsMany(network: Text, ids: seq<Text>, events: seq<Event>)
    ensures AreRequested(network, ids, events) ==> |events| == |ids|
  {
    assert |multiset(EventIds(events))| == |events| && |multiset(ids)| == |ids|;
  }

  lemma {:induction false} DistinctMultiset(ids: seq<Text>)
    requires Distinct(ids)
    ensures multiset(ids) == multiset(set id | id in ids)
  {
    if ids != [] {
      var front, last := ids[..|ids| - 1], ids[|ids| - 1];
      DistinctMultiset(front);
      assert ids == front + [last];
      assert (set id | id in ids) == (set id | id in front) + {last};
      assert last !in front;
    }
  }

  /** An ID that is not expected any more occurs more often among the events than in the request. */
  lemma Unrequested(seen: seq<Text>, ids: seq<Text>, i: nat)
    requires i < |seen| && multiset(seen[..i + 1])[seen[i]] > multiset(ids)[seen[i]]
    ensures multiset(seen) != multiset(ids)
  {
    assert seen == seen[..i + 1] + seen[i + 1..];
  }
}
