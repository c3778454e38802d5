/** The frames of a synchronization session and the limit on their size: which sessions can complete at
    all is decided by the two replicas before the session. */
module Frames {
  import opened Bytes
  import opened Listing
  import opened KeyCodec
  import opened Store
  import opened Replication
  import opened Replica
  import opened Session
  import opened Inventory

  const PAGE_SIZE: nat := 64
  const FRAME_LIMIT: nat := 1024 * 1024

  datatype Frame =
    | Offer(entries: seq<Entry>)
    | Need(ids: seq<Text>, conflicts: seq<Text>)
    | Push(events: seq<Event>)
    | Ack(received: nat, created: nat)
    | PageRequest(cursor: Text)
    | PageAnswer(page: Page)
    | EventsRequest(ids: seq<Text>)
    | EventsAnswer(events: seq<Event>)

  /** How many bytes a frame has once it is encoded. */
  type Size = Frame -> nat

  /** writeBoundedFrame */
  predicate Fits(size: Size, f: Frame) {
    size(f) <= FRAME_LIMIT
  }

  /** An acknowledgement holds two counts of at most a page, so it is short. */
  ghost predicate ShortAcks(size: Size) {
    forall received: nat, created: nat :: received <= MAX_PAGE_SIZE && created <= received ==>
      Fits(size, Ack(received, created))
  }

  ghost function PageRefs(network: Text, entries: seq<Entry>): set<Ref> {
    set e | e in entries :: Ref(network, e.id)
  }

  /****** What one page needs ******/

  /** The IDs of a page that are not among the references held. */
  ghost function LackedIds(network: Text, entries: seq<Entry>, keys: set<Ref>): seq<Text> {
    if entries == [] then []
    else
      var last := entries[|entries| - 1];
      LackedIds(network, entries[..|entries| - 1], keys) + if Ref(network, last.id) !in keys then [last.id] else []
  }

  /** The IDs of a page under which something with another digest is held. */
  ghost function Differing(h: Hashes, network: Text, entries: seq<Entry>, m: map<Ref, Event>): seq<Text> {
    if entries == [] then []
    else
      var last := entries[|entries| - 1];
      var r := Ref(network, last.id);
      Differing(h, network, entries[..|entries| - 1], m)
        + if r in m && h.digest(m[r]) != last.digest then [last.id] else []
  }

  lemma {:induction false} MissingIsLacking(s: Store, network: Text, entries: seq<Entry>)
    requires Valid(s)
    ensures MissingIds(s, network, entries) == LackedIds(network, entries, Events(s).Keys)
  {
    if entries != [] {
      MissingIsLacking(s, network, entries[..|entries| - 1]);
      FindIsEvents(s, Ref(network, entries[|entries| - 1].id));
    }
  }

  lemma {:induction false} ConflictsAreDiffering(h: Hashes, s: Store, network: Text, entries: seq<Entry>)
    requires Valid(s)
    ensures IdsOf(ConflictEntries(h, s, network, entries)) == Differing(h, network, entries, Events(s))
  {
    hide Valid;
    if entries != [] {
      var front, last := entries[..|entries| - 1], entries[|entries| - 1];
      ConflictsAreDiffering(h, s, network, front);
      FindIsEvents(s, Ref(network, last.id));
      var before, after := ConflictEntries(h, s, network, front), ConflictEntries(h, s, network, entries);
      assert after == before || after == before + [last];
      assert IdsOf(before + [last]) == IdsOf(before) + [last.id];
    }
  }

  /** What arrived since with the digests that the page shows makes no difference. */
  lemma {:induction false} DifferingFromStart(h: Hashes, network: Text, entries: seq<Entry>, m: map<Ref, Event>,
      now: map<Ref, Event>, offer: map<Ref, Event>)
    requires Describes(h, offer, network, entries)
    requires forall r :: r in m ==> r in now && now[r] == m[r]
    requires forall r :: r in offer && r in now && r !in m ==> now[r] == offer[r]
    ensures Differing(h, network, entries, now) == Differing(h, network, entries, m)
  {
    if entries != [] {
      DifferingFromStart(h, network, entries[..|entries| - 1], m, now, offer);
    }
  }

  /** What a receiver holds once it has taken the passed references of an offer, copies included. */
  ghost function HeldAfter(h: Hashes, m: map<Ref, Event>, offer: map<Ref, Event>, passed: set<Ref>): set<Ref> {
    var taken := passed * offer.Keys - m.Keys;
    m.Keys + taken + Copies(h, m, offer, taken)
  }

  ghost predicate IsFetch(sender: map<Ref, Event>, network: Text, ids: seq<Text>, events: seq<Event>) {
    |events| == |ids| && forall i :: 0 <= i < |ids| ==>
      Ref(network, ids[i]) in sender && events[i] == sender[Ref(network, ids[i])]
  }

  /** The frames that carry the missing events of a page fit; in a pull they have to be asked for. */
  ghost predicate FetchFits(push: bool, size: Size, network: Text, sender: map<Ref, Event>, ids: seq<Text>) {
    ids != [] ==>
      && (push || Fits(size, EventsRequest(ids)))
      && forall events {:trigger IsFetch(sender, network, ids, events)} :: IsFetch(sender, network, ids, events) ==>
           Fits(size, if push then Push(events) else EventsAnswer(events))
  }

  /** All frames of the round for one page fit. The receiver holds m when the transfer begins and has
      taken the references `passed` by then. */
  ghost predicate PageFits(push: bool, h: Hashes, size: Size, network: Text, sender: map<Ref, Event>,
      m: map<Ref, Event>, cursor: Text, page: Page, passed: set<Ref>) {
    var ids := LackedIds(network, page.entries, HeldAfter(h, m, Visible(sender, network), passed));
    if push then
      page.entries == [] || (
        && Fits(size, Offer(page.entries))
        && Fits(size, Need(ids, Differing(h, network, page.entries, m)))
        && FetchFits(true, size, network, sender, ids))
    else
      && Fits(size, PageRequest(cursor)) && Fits(size, PageAnswer(page))
      && FetchFits(false, size, network, sender, ids)
  }

  /** The frames of one page, none of which may be longer than 1 MiB. A push of a page that lists anything
      sends its entries, the answer with the IDs that the receiver lacks and those that differ, and, if
      any are lacking, one frame with their events. A pull sends the request for the page, the page,
      and, if any IDs are lacking, the request for their events and the events. */
  lemma PageNeedsFrames(push: bool, h: Hashes, size: Size, network: Text, sender: map<Ref, Event>,
      m: map<Ref, Event>, cursor: Text, page: Page, passed: set<Ref>, events: seq<Event>)
    requires
      var ids := LackedIds(network, page.entries, HeldAfter(h, m, Visible(sender, network), passed));
      IsFetch(sender, network, ids, events)
    ensures
      var ids := LackedIds(network, page.entries, HeldAfter(h, m, Visible(sender, network), passed));
      PageFits(push, h, size, network, sender, m, cursor, page, passed) <==>
        if push then
          page.entries == [] ||
            (&& size(Offer(page.entries)) <= 1_048_576
             && size(Need(ids, Differing(h, network, page.entries, m))) <= 1_048_576
             && (ids == [] || size(Push(events)) <= 1_048_576))
        else
          && size(PageRequest(cursor)) <= 1_048_576 && size(PageAnswer(page)) <= 1_048_576
          && (ids == [] || (size(EventsRequest(ids)) <= 1_048_576 && size(EventsAnswer(events)) <= 1_048_576))
  {
    hide LackedIds, HeldAfter, Differing, Visible, IsFetch, FetchFits;
    var ids := LackedIds(network, page.entries, HeldAfter(h, m, Visible(sender, network), passed));
    if ids == [] {
      NothingToFetch(push, size, network, sender);
    } else {
      FetchFitsIff(push, size, network, sender, ids, events);
    }
  }

  lemma NothingToFetch(push: bool, size: Size, network: Text, sender: map<Ref, Event>)
    ensures FetchFits(push, size, network, sender, [])
  {
  }

  /** What was fetched decides. */
  lemma FetchFitsIff(push: bool, size: Size, network: Text, sender: map<Ref, Event>, ids: seq<Text>,
      events: seq<Event>)
    requires ids != [] && IsFetch(sender, network, ids, events)
    ensures FetchFits(push, size, network, sender, ids) <==>
      (push || Fits(size, EventsRequest(ids))) && Fits(size, if push then Push(events) else EventsAnswer(events))
  {
    forall other | IsFetch(sender, network, ids, other) ensures other == events {
      FetchIsUnique(sender, network, ids, events, other);
    }
  }

  lemma FetchIsUnique(sender: map<Ref, Event>, network: Text, ids: seq<Text>, events: seq<Event>, other: seq<Event>)
    requires IsFetch(sender, network, ids, events) && IsFetch(sender, network, ids, other)
    ensures events == other
  {
  }

  /****** All pages ******/

  ghost predicate PageOn(h: Hashes, m: map<Ref, Event>, network: Text, pages: seq<Page>, k: nat)
    requires k < |pages|
  {
    IsPage(h, m, network, CursorOf(pages, k), PAGE_SIZE, pages[k]) && (k + 1 < |pages| ==> !pages[k].done)
  }

  /** The first pages of an inventory. */
  ghost predicate IsWalk(h: Hashes, m: map<Ref, Event>, network: Text, pages: seq<Page>) {
    forall k {:trigger PageOn(h, m, network, pages, k)} :: 0 <= k < |pages| ==> PageOn(h, m, network, pages, k)
  }

  /** Every page of a session but the last one lists 64 events, and the last one no more. */
  lemma PagesAreFull(h: Hashes, m: map<Ref, Event>, network: Text, pages: seq<Page>, k: nat)
    requires IsWalk(h, m, network, pages) && k < |pages|
    ensures |pages[k].entries| <= 64 && (k + 1 < |pages| ==> |pages[k].entries| == 64)
  {
    hide IsPage;
    assert PageOn(h, m, network, pages, k);
    PageContents(h, m, network, CursorOf(pages, k), PAGE_SIZE, pages[k]);
  }

  ghost function PassedBy(network: Text, pages: seq<Page>): set<Ref> {
    if pages == [] then {}
    else PassedBy(network, pages[..|pages| - 1]) + PageRefs(network, pages[|pages| - 1].entries)
  }

  ghost predicate LastFits(push: bool, h: Hashes, size: Size, network: Text, sender: map<Ref, Event>,
      m: map<Ref, Event>, pages: seq<Page>)
    requires pages != []
  {
    var last := |pages| - 1;
    PageFits(push, h, size, network, sender, m, CursorOf(pages, last), pages[last], PassedBy(network, pages[..last]))
  }

  /** No page of the sender's inventory needs a frame beyond the limit. */
  ghost predicate TransferFits(push: bool, h: Hashes, size: Size, network: Text, sender: map<Ref, Event>,
      m: map<Ref, Event>) {
    forall pages {:trigger IsWalk(h, sender, network, pages)} ::
      IsWalk(h, sender, network, pages) && pages != [] ==> LastFits(push, h, size, network, sender, m, pages)
  }

  /** The whole session fits: the push, and the pull from what the responder holds after it. */
  ghost predicate SessionFits(h: Hashes, size: Size, history: set<Event>, network: Text, a: map<Ref, Event>,
      b: map<Ref, Event>) {
    && TransferFits(true, h, size, network, a, b)
    && forall b' {:trigger Transfer(h, history, network, a, b, b')} ::
         Transfer(h, history, network, a, b, b') ==> TransferFits(false, h, size, network, b', a)
  }

  /****** The pages of a replica are determined ******/

  lemma NamedIsListed(entries: seq<Entry>, id: Text)
    ensures id in IdsOf(entries) <==> Names(entries, id)
  {
    if Names(entries, id) {
      var i :| 0 <= i < |entries| && entries[i].id == id;
      assert IdsOf(entries)[i] == id;
    }
  }

  lemma EntriesUnique(p: seq<Entry>, q: seq<Entry>)
    requires IdsAscend(p) && IdsAscend(q) && forall id :: Names(p, id) <==> Names(q, id)
    requires forall i, j :: 0 <= i < |p| && 0 <= j < |q| && p[i].id == q[j].id ==> p[i] == q[j]
    ensures p == q
  {
    var s, t := IdsOf(p), IdsOf(q);
    forall x ensures x in s <==> x in t {
      NamedIsListed(p, x);
      NamedIsListed(q, x);
    }
    AscendingUnique(s, t);
    assert |s| == |t|;
    forall i | 0 <= i < |p| ensures p[i] == q[i] {
      assert s[i] == t[i];
    }
  }

  lemma PageUnique(h: Hashes, m: map<Ref, Event>, network: Text, cursor: Text, p: Page, q: Page)
    requires IsPage(h, m, network, cursor, PAGE_SIZE, p) && IsPage(h, m, network, cursor, PAGE_SIZE, q)
    ensures p == q
  {
    hide Behind, Ascending, Visible, Encode;
    EntriesUnique(p.entries, q.entries);
  }

  /** Of two walks over one replica the shorter is the front of the longer. */
  lemma {:induction false} WalksAgree(h: Hashes, m: map<Ref, Event>, network: Text, p: seq<Page>, q: seq<Page>, k: nat)
    requires IsWalk(h, m, network, p) && IsWalk(h, m, network, q) && k <= |p| && k <= |q|
    ensures p[..k] == q[..k]
    decreases k
  {
    hide IsPage;
    if k > 0 {
      WalksAgree(h, m, network, p, q, k - 1);
      assert PageOn(h, m, network, p, k - 1) && PageOn(h, m, network, q, k - 1);
      assert CursorOf(p, k - 1) == CursorOf(q, k - 1) by {
        if k > 1 {
          assert p[k - 2] == p[..k - 1][k - 2] == q[..k - 1][k - 2] == q[k - 2];
        }
      }
      PageUnique(h, m, network, CursorOf(p, k - 1), p[k - 1], q[k - 1]);
      assert p[..k] == p[..k - 1] + [p[k - 1]] && q[..k] == q[..k - 1] + [q[k - 1]];
    }
  }

  /****** A transfer on its way ******/

  /** Each page, read after those before it, fits. */
  ghost predicate FrontsFit(push: bool, h: Hashes, size: Size, network: Text, sender: map<Ref, Event>,
      m: map<Ref, Event>, pages: seq<Page>) {
    pages != [] ==>
      && LastFits(push, h, size, network, sender, m, pages)
      && FrontsFit(push, h, size, network, sender, m, pages[..|pages| - 1])
  }

  lemma {:induction false} FrontFits(push: bool, h: Hashes, size: Size, network: Text, sender: map<Ref, Event>,
      m: map<Ref, Event>, pages: seq<Page>, k: nat)
    requires FrontsFit(push, h, size, network, sender, m, pages) && 0 < k <= |pages|
    ensures LastFits(push, h, size, network, sender, m, pages[..k])
    decreases |pages|
  {
    hide LastFits;
    if k < |pages| {
      var front := pages[..|pages| - 1];
      FrontFits(push, h, size, network, sender, m, front, k);
      assert front[..k] == pages[..k];
    } else {
      assert pages[..k] == pages;
    }
  }

  /** The pages read so far, all of which fitted. */
  ghost predicate Walked(push: bool, h: Hashes, size: Size, network: Text, sender: map<Ref, Event>,
      m: map<Ref, Event>, pages: seq<Page>, passed: set<Ref>, cursor: Text) {
    && IsWalk(h, sender, network, pages) && (pages != [] ==> !pages[|pages| - 1].done)
    && passed == PassedBy(network, pages) && cursor == CursorOf(pages, |pages|)
    && FrontsFit(push, h, size, network, sender, m, pages)
  }

  lemma WalkStarts(push: bool, h: Hashes, size: Size, network: Text, sender: map<Ref, Event>, m: map<Ref, Event>)
    ensures Walked(push, h, size, network, sender, m, [], {}, [])
  {
  }

  lemma OneMorePage(h: Hashes, sender: map<Ref, Event>, network: Text, pages: seq<Page>, page: Page)
    requires IsWalk(h, sender, network, pages) && (pages != [] ==> !pages[|pages| - 1].done)
    requires IsPage(h, sender, network, CursorOf(pages, |pages|), PAGE_SIZE, page)
    ensures IsWalk(h, sender, network, pages + [page])
  {
    hide IsPage;
    var more := pages + [page];
    forall k | 0 <= k < |more| ensures PageOn(h, sender, network, more, k) {
      if k < |pages| {
        assert PageOn(h, sender, network, pages, k);
      }
    }
  }

  /** One more page that fits. */
  lemma WalkStep(push: bool, h: Hashes, size: Size, network: Text, sender: map<Ref, Event>, m: map<Ref, Event>,
      pages: seq<Page>, passed: set<Ref>, cursor: Text, page: Page)
    requires Walked(push, h, size, network, sender, m, pages, passed, cursor)
    requires IsPage(h, sender, network, cursor, PAGE_SIZE, page)
    requires PageFits(push, h, size, network, sender, m, cursor, page, passed)
    ensures !page.done ==>
      Walked(push, h, size, network, sender, m, pages + [page], passed + PageRefs(network, page.entries), page.next)
    ensures page.done ==> TransferFits(push, h, size, network, sender, m)
  {
    hide IsPage, PageFits, PageRefs;
    OneMorePage(h, sender, network, pages, page);
    var more := pages + [page];
    assert more[..|pages|] == pages;
    assert CursorOf(more, |pages|) == cursor && CursorOf(more, |more|) == page.next;
    assert LastFits(push, h, size, network, sender, m, more);
    hide LastFits, IsWalk;
    assert FrontsFit(push, h, size, network, sender, m, more);
    if page.done {
      AllFit(push, h, size, network, sender, m, more);
    }
  }

  lemma AllFit(push: bool, h: Hashes, size: Size, network: Text, sender: map<Ref, Event>, m: map<Ref, Event>,
      pages: seq<Page>)
    requires IsWalk(h, sender, network, pages) && pages != [] && pages[|pages| - 1].done
    requires FrontsFit(push, h, size, network, sender, m, pages)
    ensures TransferFits(push, h, size, network, sender, m)
  {
    hide IsPage, PageFits, LastFits, FrontsFit;
    forall other | IsWalk(h, sender, network, other) && other != []
      ensures LastFits(push, h, size, network, sender, m, other)
    {
      var n := Min(|other|, |pages|);
      WalksAgree(h, sender, network, pages, other, n);
      if |pages| <= |other| {
        assert other[|pages| - 1] == other[..n][|pages| - 1];
        DoneIsLast(h, sender, network, other, |pages| - 1);
      }
      assert other[..|other|] == other;
      assert other == pages[..|other|];
      FrontFits(push, h, size, network, sender, m, pages, |other|);
    }
  }

  lemma DoneIsLast(h: Hashes, m: map<Ref, Event>, network: Text, pages: seq<Page>, k: nat)
    requires IsWalk(h, m, network, pages) && k < |pages| && pages[k].done
    ensures k + 1 == |pages|
  {
    hide IsPage;
    assert PageOn(h, m, network, pages, k);
  }

  /** A page that does not fit stops the transfer, wherever the receiver stood when it began. */
  lemma WalkStops(push: bool, h: Hashes, size: Size, network: Text, sender: map<Ref, Event>, m: map<Ref, Event>,
      now: map<Ref, Event>, pages: seq<Page>, passed: set<Ref>, cursor: Text, page: Page)
    requires Walked(push, h, size, network, sender, m, pages, passed, cursor)
    requires IsPage(h, sender, network, cursor, PAGE_SIZE, page)
    requires !PageFits(push, h, size, network, sender, now, cursor, page, passed)
    ensures !TransferFits(push, h, size, network, sender, now)
  {
    hide IsPage, PageFits;
    OneMorePage(h, sender, network, pages, page);
    var more := pages + [page];
    assert more[..|pages|] == pages;
    assert !LastFits(push, h, size, network, sender, now, more);
  }

  /** What a receiver has taken of the pages before it leaves a page as it was. */
  lemma StillDoesNotFit(push: bool, h: Hashes, size: Size, network: Text, sender: map<Ref, Event>,
      m: map<Ref, Event>, now: map<Ref, Event>, cursor: Text, page: Page, passed: set<Ref>)
    requires Describes(h, Visible(sender, network), network, page.entries)
    requires forall r :: r in m ==> r in now && now[r] == m[r]
    requires forall r :: r in Visible(sender, network) && r in now && r !in m ==> now[r] == Visible(sender, network)[r]
    requires now.Keys == HeldAfter(h, m, Visible(sender, network), passed)
    ensures PageFits(push, h, size, network, sender, now, cursor, page, passed) <==>
      PageFits(push, h, size, network, sender, m, cursor, page, passed)
  {
    hide Visible, Describes;
    var offer := Visible(sender, network);
    DifferingFromStart(h, network, page.entries, m, now, offer);
    assert passed * offer.Keys - now.Keys == {};
    assert HeldAfter(h, now, offer, passed) == now.Keys;
  }
}
