/**
 * The LinkedIn spider's guest mode and its entry point: listing pages are
 * requested one after another until one is missing or has no usable card,
 * links are kept once per url in first-seen order, each link's detail page
 * becomes a job, and `run` uses the logged-in UI unless it is headless or
 * the UI attempt raised, in which case it uses guest mode alone.
 *
 * `linkedin_fetch` is a function from URL to page body (`None` when every
 * attempt failed; its retry policy is `Fetch.LinkedinFetch`), and the HTML
 * parser is a function from body to extracted cards or detail fields.
 */
module LinkedinGuest {

  import opened Wrappers
  import opened Py
  import opened Enums
  import opened JobModel
  import opened Pipeline
  import opened Linkedin

  /** `linkedin_fetch`: the body of a page, or `None`. */
  type Fetcher = string -> Option<string>

  /** The cards of a listing page. */
  type ListingParser = string -> seq<Card>

  /** The fields of a job's detail page. */
  type DetailParser = string -> DetailDoc

  // ------------------------------------------------------------ first-seen dedup

  function Urls(ls: seq<Link>): (r: seq<string>)
    ensures |r| == |ls| && forall i :: 0 <= i < |ls| ==> r[i] == ls[i].url
  {
    seq(|ls|, i requires 0 <= i < |ls| => ls[i].url)
  }

  predicate DistinctUrls(ls: seq<Link>) {
    forall i, j :: 0 <= i < j < |ls| ==> ls[i].url != ls[j].url
  }

  /** The links with a url not seen before, in order: the first link of every url. */
  function Dedup(ls: seq<Link>): (r: seq<Link>)
    ensures |r| <= |ls|
    decreases |ls|
  {
    if |ls| == 0 then []
    else
      var d := Dedup(ls[..|ls| - 1]);
      if ls[|ls| - 1].url in Urls(d) then d else d + [ls[|ls| - 1]]
  }

  /** `ls[i]` is the first link with its url. */
  predicate FirstOfUrl(ls: seq<Link>, i: int) {
    0 <= i < |ls| && forall j :: 0 <= j < i ==> ls[j].url != ls[i].url
  }

  /** The links of `ls` with the last one appended. */
  lemma UrlsSnoc(ls: seq<Link>, l: Link)
    ensures Urls(ls + [l]) == Urls(ls) + [l.url]
  {
  }

  /** Dedup keeps every url and invents none. */
  lemma {:induction false} DedupUrls(ls: seq<Link>)
    ensures forall u :: u in Urls(Dedup(ls)) <==> u in Urls(ls)
    decreases |ls|
  {
    if |ls| > 0 {
      var init, last := ls[..|ls| - 1], ls[|ls| - 1];
      DedupUrls(init);
      assert ls == init + [last];
      UrlsSnoc(init, last);
      UrlsSnoc(Dedup(init), last);
    }
  }

  /** Dedup keeps each url once. */
  lemma {:induction false} DedupDistinct(ls: seq<Link>)
    ensures DistinctUrls(Dedup(ls))
    decreases |ls|
  {
    if |ls| > 0 {
      var init, last := ls[..|ls| - 1], ls[|ls| - 1];
      DedupDistinct(init);
      var d := Dedup(init);
      if last.url !in Urls(d) {
        var r := d + [last];
        forall i, j | 0 <= i < j < |r| ensures r[i].url != r[j].url {
          if j == |d| {
            assert r[i].url == Urls(d)[i];
          } else {
            assert r[i] == d[i] && r[j] == d[j];
          }
        }
      }
    }
  }

  /** Every link of `r` is the first link of its url in `ls`. */
  ghost predicate FirstsOnly(ls: seq<Link>, r: seq<Link>) {
    forall k :: 0 <= k < |r| ==> exists i :: FirstOfUrl(ls, i) && r[k] == ls[i]
  }

  /** Each link dedup keeps is the first link of its url. */
  lemma {:induction false} DedupKeepsFirst(ls: seq<Link>)
    ensures FirstsOnly(ls, Dedup(ls))
    decreases |ls|
  {
    if |ls| > 0 {
      var init, last := ls[..|ls| - 1], ls[|ls| - 1];
      DedupKeepsFirst(init);
      DedupUrls(init);
      assert forall j :: 0 <= j < |init| ==> init[j] == ls[j];
      var d := Dedup(init);
      var res := Dedup(ls);
      assert res == if last.url in Urls(d) then d else d + [last];
      forall k | 0 <= k < |res| ensures exists i :: FirstOfUrl(ls, i) && res[k] == ls[i] {
        if k < |d| {
          var i :| FirstOfUrl(init, i) && d[k] == init[i];
          assert res[k] == d[k];
          assert FirstOfUrl(ls, i) && res[k] == ls[i];
        } else {
          assert last.url !in Urls(d) && res[k] == last;
          forall j | 0 <= j < |ls| - 1 ensures ls[j].url != last.url {
            assert ls[j].url == Urls(init)[j];
          }
          assert FirstOfUrl(ls, |ls| - 1);
        }
      }
      assert FirstsOnly(ls, res);
    } else {
      assert Dedup(ls) == [];
    }
  }

  /** Dedup of a prefix is a prefix of the dedup: links keep the order in which their urls first appear. */
  lemma {:induction false} DedupPrefix(ls: seq<Link>, n: nat)
    requires n <= |ls|
    ensures |Dedup(ls[..n])| <= |Dedup(ls)| && Dedup(ls[..n]) == Dedup(ls)[..|Dedup(ls[..n])|]
    decreases |ls|
  {
    if n < |ls| {
      var init := ls[..|ls| - 1];
      assert init[..n] == ls[..n];
      DedupPrefix(init, n);
    } else {
      assert ls[..n] == ls;
    }
  }

  /** Appending one link extends the dedup by it exactly when its url is new. */
  lemma DedupSnoc(ls: seq<Link>, l: Link)
    ensures Dedup(ls + [l]) == if l.url in Urls(Dedup(ls)) then Dedup(ls) else Dedup(ls) + [l]
  {
    assert (ls + [l])[..|ls + [l]| - 1] == ls;
  }

  // ------------------------------------------------------------ guest pagination

  /** The body the spider gets for guest page `p` of a position's search. */
  function PageBody(cfg: Config, position: Position, fetch: Fetcher): nat -> Option<string> {
    (p: nat) => fetch(GuestUrl(cfg, position, p))
  }

  /** The links the spider reads from a listing page body. */
  function PageReader(parse: ListingParser, now: nat): string -> seq<Link> {
    (html: string) => ParseListing(parse(html), now)
  }

  /**
   * The link lists of pages `page`, `page + 1`, ... below `maxPages`: the
   * walk stops at the first page whose body is missing or empty, or that
   * yields no link.
   */
  function Walk(maxPages: int, body: nat -> Option<string>, read: string -> seq<Link>, page: nat)
    : (r: seq<seq<Link>>)
    ensures page >= maxPages ==> r == []
    ensures page < maxPages ==> |r| <= maxPages - page
    ensures forall i :: 0 <= i < |r| ==> |r[i]| > 0
    decreases if page < maxPages then maxPages - page else 0
  {
    if page >= maxPages then []
    else
      match body(page)
      case None => []
      case Some(html) =>
        if |html| == 0 || |read(html)| == 0 then []
        else [read(html)] + Walk(maxPages, body, read, page + 1)
  }

  /** One step of the walk: page `page` either stops it or is read and followed by the rest. */
  lemma WalkStep(maxPages: int, body: nat -> Option<string>, read: string -> seq<Link>, page: nat)
    requires page < maxPages
    ensures body(page).None? || |body(page).value| == 0 || |read(body(page).value)| == 0
      ==> Walk(maxPages, body, read, page) == []
    ensures body(page).Some? && |body(page).value| > 0 && |read(body(page).value)| > 0
      ==> Walk(maxPages, body, read, page) == [read(body(page).value)] + Walk(maxPages, body, read, page + 1)
  {
  }

  /** The walk so far, `done`, grows by the page just read. */
  lemma WalkAdvance(maxPages: int, body: nat -> Option<string>, read: string -> seq<Link>, done: seq<seq<Link>>, page: nat)
    requires page < maxPages && Walk(maxPages, body, read, 0) == done + Walk(maxPages, body, read, page)
    requires body(page).Some? && |body(page).value| > 0 && |read(body(page).value)| > 0
    ensures Walk(maxPages, body, read, 0) == (done + [read(body(page).value)]) + Walk(maxPages, body, read, page + 1)
    ensures Flatten(done + [read(body(page).value)]) == Flatten(done) + read(body(page).value)
  {
    var cards := read(body(page).value);
    WalkStep(maxPages, body, read, page);
    FlattenAppend(done, [cards]);
    assert Flatten([cards]) == cards + Flatten([]);
  }

  /** Once the walk has stopped, `done` is all of it. */
  lemma WalkDone(maxPages: int, body: nat -> Option<string>, read: string -> seq<Link>, done: seq<seq<Link>>, page: nat)
    requires Walk(maxPages, body, read, 0) == done + Walk(maxPages, body, read, page)
    requires Walk(maxPages, body, read, page) == []
    ensures Walk(maxPages, body, read, 0) == done
  {
    assert done + [] == done;
  }

  /** Page `k` of the walk is what was read from the body of page `page + k`. */
  lemma {:induction false} WalkContents(maxPages: int, body: nat -> Option<string>, read: string -> seq<Link>, page: nat, k: nat)
    requires k < |Walk(maxPages, body, read, page)|
    ensures body(page + k).Some? && Walk(maxPages, body, read, page)[k] == read(body(page + k).value)
    decreases k
  {
    if k > 0 {
      WalkContents(maxPages, body, read, page + 1, k - 1);
    }
  }

  /** A page whose body is missing or empty ends the walk: no later page is requested. */
  lemma {:induction false} WalkStopsAt(maxPages: int, body: nat -> Option<string>, read: string -> seq<Link>, page: nat, k: nat)
    requires page <= k
    requires body(k).None? || body(k) == Some("")
    ensures |Walk(maxPages, body, read, page)| <= k - page
    decreases k - page
  {
    if page < k && page < maxPages {
      WalkStopsAt(maxPages, body, read, page + 1, k);
    }
  }

  /** Only the bodies of pages below `maxPages` are ever looked at. */
  lemma {:induction false} WalkReadsBelowMax(maxPages: int, body: nat -> Option<string>, other: nat -> Option<string>,
                                             read: string -> seq<Link>, page: nat)
    requires forall p: nat :: page <= p < maxPages ==> body(p) == other(p)
    ensures Walk(maxPages, body, read, page) == Walk(maxPages, other, read, page)
    decreases if page < maxPages then maxPages - page else 0
  {
    if page < maxPages {
      WalkReadsBelowMax(maxPages, body, other, read, page + 1);
    }
  }

  /** The link lists of a position's guest search pages. */
  function GuestPages(cfg: Config, position: Position, fetch: Fetcher, parse: ListingParser, now: nat): seq<seq<Link>> {
    Walk(cfg.maxPages, PageBody(cfg, position, fetch), PageReader(parse, now), 0)
  }

  /** Guest page `k` is the listing of the body fetched from the URL with offset `25 * k`. */
  lemma GuestPageContents(cfg: Config, position: Position, fetch: Fetcher, parse: ListingParser, now: nat, k: nat)
    requires k < |GuestPages(cfg, position, fetch, parse, now)|
    ensures k < cfg.maxPages && fetch(GuestUrl(cfg, position, k)).Some?
    ensures GuestPages(cfg, position, fetch, parse, now)[k] == ParseListing(parse(fetch(GuestUrl(cfg, position, k)).value), now)
  {
    var body, read := PageBody(cfg, position, fetch), PageReader(parse, now);
    WalkContents(cfg.maxPages, body, read, 0, k);
    assert body(k) == fetch(GuestUrl(cfg, position, k));
  }

  /** `_collect_links_guest`, stated: the links of all walked pages, first link of each url. */
  function GuestLinks(cfg: Config, position: Position, fetch: Fetcher, parse: ListingParser, now: nat): seq<Link> {
    Dedup(Flatten(GuestPages(cfg, position, fetch, parse, now)))
  }

  /** One step of the inner loop: `seen` tracks the kept urls, so testing it is testing the kept links. */
  lemma SeenStep(before: seq<Link>, links: seq<Link>, seen: set<string>, c: Link)
    requires links == Dedup(before)
    requires forall u :: u in seen <==> u in Urls(links)
    ensures c.url in seen ==> Dedup(before + [c]) == links
    ensures c.url !in seen ==> Dedup(before + [c]) == links + [c]
    ensures c.url !in seen ==> forall u :: u in seen + {c.url} <==> u in Urls(links + [c])
  {
    DedupSnoc(before, c);
    UrlsSnoc(links, c);
  }

  /** `for c in cards: if c.url not in seen: seen.add(c.url); links.append(c)`. */
  method AppendUnseen(links: seq<Link>, seen: set<string>, cards: seq<Link>, ghost before: seq<Link>)
    returns (links': seq<Link>, seen': set<string>)
    requires links == Dedup(before)
    requires forall u :: u in seen <==> u in Urls(links)
    ensures links' == Dedup(before + cards)
    ensures forall u :: u in seen' <==> u in Urls(links')
  {
    links', seen' := links, seen;
    assert before + cards[..0] == before;
    var j := 0;
    while j < |cards|
      invariant 0 <= j <= |cards|
      invariant links' == Dedup(before + cards[..j])
      invariant forall u :: u in seen' <==> u in Urls(links')
    {
      var c := cards[j];
      assert before + cards[..j + 1] == (before + cards[..j]) + [c];
      SeenStep(before + cards[..j], links', seen', c);
      if c.url !in seen' {
        seen' := seen' + {c.url};
        links' := links' + [c];
      }
      j := j + 1;
    }
    assert cards[..|cards|] == cards;
  }

  /**
   * The loop of `_collect_links_guest`, with its `seen` set: pages are read
   * in order until one stops the walk, and a link is appended unless its url
   * was seen before.
   */
  method CollectLinks(maxPages: int, body: nat -> Option<string>, read: string -> seq<Link>) returns (links: seq<Link>)
    ensures links == Dedup(Flatten(Walk(maxPages, body, read, 0)))
  {
    links := [];
    var seen: set<string> := {};
    ghost var done: seq<seq<Link>> := [];
    var page: nat := 0;
    while page < maxPages
      invariant Walk(maxPages, body, read, 0) == done + Walk(maxPages, body, read, page)
      invariant links == Dedup(Flatten(done))
      invariant forall u :: u in seen <==> u in Urls(links)
      decreases maxPages - page
    {
      WalkStep(maxPages, body, read, page);
      var html := body(page);
      if html.None? || |html.value| == 0 {
        break;
      }
      var cards := read(html.value);
      if |cards| == 0 {
        break;
      }
      links, seen := AppendUnseen(links, seen, cards, Flatten(done));
      WalkAdvance(maxPages, body, read, done, page);
      done := done + [cards];
      page := page + 1;
    }
    WalkDone(maxPages, body, read, done, page);
  }

  /** `_collect_links_guest`: the walk over the position's guest search pages. */
  method CollectLinksGuest(cfg: Config, position: Position, fetch: Fetcher, parse: ListingParser, now: nat)
    returns (links: seq<Link>)
    ensures links == GuestLinks(cfg, position, fetch, parse, now)
    ensures DistinctUrls(links)
  {
    links := CollectLinks(cfg.maxPages, PageBody(cfg, position, fetch), PageReader(parse, now));
    DedupDistinct(Flatten(GuestPages(cfg, position, fetch, parse, now)));
  }

  // ------------------------------------------------------------ jobs

  /** `_build_job_from_detail_guest`: a job built from the link's detail page, or `None` when it did not load. */
  function BuildJob(link: Link, position: Position, fetch: Fetcher, parseDetail: DetailParser): (r: Option<Job>)
    ensures r.Some? <==> fetch(link.url).Some? && |fetch(link.url).value| > 0
    ensures r.Some? ==> && r.value.url == link.url && r.value.publishedAt == link.date
                        && r.value.modality == Some(link.modality)
                        && r.value.position == position && r.value.website == LinkedIn
  {
    match fetch(link.url)
    case None => None
    case Some(html) =>
      if |html| == 0 then None
      else
        var job := NewJob(JStr(""), JStr(""), link.url, link.date, position, LinkedIn);
        Some(SetLinkedinHtml(job, parseDetail(html), link.date, link.modality))
  }

  /** The jobs of one position: every collected link whose detail page loaded. */
  function PositionJobs(cfg: Config, position: Position, fetch: Fetcher, parse: ListingParser,
                        parseDetail: DetailParser, now: nat): seq<Job>
  {
    var links := GuestLinks(cfg, position, fetch, parse, now);
    Present(seq(|links|, k requires 0 <= k < |links| => BuildJob(links[k], position, fetch, parseDetail)))
  }

  /** A guest job is the job of a collected link of its position, with that link's url, date and modality. */
  lemma PositionJobFromLink(cfg: Config, position: Position, fetch: Fetcher, parse: ListingParser,
                            parseDetail: DetailParser, now: nat, j: Job)
    ensures j in PositionJobs(cfg, position, fetch, parse, parseDetail, now) ==> j.position == position && j.website == LinkedIn
    ensures j in PositionJobs(cfg, position, fetch, parse, parseDetail, now) ==>
      exists l :: l in GuestLinks(cfg, position, fetch, parse, now)
                  && j.url == l.url && j.publishedAt == l.date && j.modality == Some(l.modality)
  {
    if j in PositionJobs(cfg, position, fetch, parse, parseDetail, now) {
      var links := GuestLinks(cfg, position, fetch, parse, now);
      var built := seq(|links|, k requires 0 <= k < |links| => BuildJob(links[k], position, fetch, parseDetail));
      assert Some(j) in built;
      var k :| 0 <= k < |built| && built[k] == Some(j);
      assert links[k] in links;
    }
  }

  /** `_run_guest`: the jobs of every position, positions in declaration order. */
  function GuestRun(cfg: Config, fetch: Fetcher, parse: ListingParser, parseDetail: DetailParser, now: nat): seq<Job> {
    Flatten(seq(|Positions|, i requires 0 <= i < |Positions| => PositionJobs(cfg, Positions[i], fetch, parse, parseDetail, now)))
  }

  /** Guest jobs come grouped by position, positions in declaration order, and all from LinkedIn. */
  lemma GuestRunInPositionOrder(cfg: Config, fetch: Fetcher, parse: ListingParser, parseDetail: DetailParser, now: nat)
    ensures SortedBy(GuestRun(cfg, fetch, parse, parseDetail, now), (j: Job) => j.position.Ordinal())
    ensures forall j :: j in GuestRun(cfg, fetch, parse, parseDetail, now) ==> j.website == LinkedIn
  {
    var groups := seq(|Positions|, i requires 0 <= i < |Positions| => PositionJobs(cfg, Positions[i], fetch, parse, parseDetail, now));
    PositionsInDeclarationOrder();
    forall i, j: Job | 0 <= i < |groups| && j in groups[i] ensures j.position.Ordinal() == 0 + i && j.website == LinkedIn {
      PositionJobFromLink(cfg, Positions[i], fetch, parse, parseDetail, now, j);
    }
    FlattenGrouped(groups, (j: Job) => j.position.Ordinal(), 0);
    forall j | j in Flatten(groups) ensures j.website == LinkedIn {
      FlattenMember(groups, j);
    }
  }

  // ------------------------------------------------------------ entry point

  /** How the logged-in UI attempt ended: with its jobs, or by raising. */
  datatype UiOutcome = UiReturned(jobs: seq<Job>) | UiRaised

  /**
   * `run`: the UI's jobs when the spider is not headless and the UI attempt
   * returned; otherwise the guest jobs alone.
   */
  function Run(cfg: Config, ui: UiOutcome, fetch: Fetcher, parse: ListingParser, parseDetail: DetailParser, now: nat)
    : (r: seq<Job>)
    ensures !cfg.headless && ui.UiReturned? ==> r == ui.jobs
    ensures cfg.headless || ui.UiRaised? ==> r == GuestRun(cfg, fetch, parse, parseDetail, now)
  {
    if !cfg.headless && ui.UiReturned? then ui.jobs
    else GuestRun(cfg, fetch, parse, parseDetail, now)
  }

  /** A headless spider never looks at the UI, and a failed UI attempt leaves nothing of its own behind. */
  lemma RunFallbackIsWhole(cfg: Config, ui: UiOutcome, fetch: Fetcher, parse: ListingParser,
                           parseDetail: DetailParser, now: nat)
    ensures cfg.headless ==> Run(cfg, ui, fetch, parse, parseDetail, now) == Run(cfg, UiRaised, fetch, parse, parseDetail, now)
    ensures Run(cfg, ui, fetch, parse, parseDetail, now) == GuestRun(cfg, fetch, parse, parseDetail, now)
         || (ui.UiReturned? && Run(cfg, ui, fetch, parse, parseDetail, now) == ui.jobs)
  {
  }
}
