/**
 * The Trabajo con Sentido spider: per position, a tag-filtered listing of
 * offer slugs (falling back to the unfiltered listing when that is empty);
 * each slug's detail becomes a posting. The API is a parameter:
 * `api(url)` is what the Trabajo con Sentido fetch helper returns for that
 * URL, `JNull` standing for None.
 */
module Tcs {

  import opened Wrappers
  import opened Text
  import opened Py
  import opened Calendar
  import opened Enums
  import opened JobModel
  import opened Pipeline

  const BaseUrl: string := "https://api.trabajoconsentido.com/offers"
  const OfferBaseUrl: string := "https://api.trabajoconsentido.com/offers/slug"
  const JobBaseUrl: string := "https://listado.trabajoconsentido.com/trabajos/"

  type Api = string -> Json

  /** The tag-filtered listing of a position (spaces in the value become commas). */
  function ListUrl(position: Position): string {
    BaseUrl + "?tags=" + Replace(position.Value(), ' ', ",")
  }

  /** No position value has a space: the tag is the position value itself. */
  lemma ListUrlUsesPositionVerbatim(position: Position)
    ensures ListUrl(position) == BaseUrl + "?tags=" + position.Value()
  {
    PositionValuesHaveNoSpace(position);
  }

  /** A listed offer that yields a detail URL: a dict with a truthy `slug`. */
  predicate HasSlug(o: Json) {
    o.JObj? && Truthy(DictGet(o, "slug", JNull))
  }

  function SlugUrl(o: Json): string
    requires HasSlug(o)
  {
    OfferBaseUrl + "/" + Str(DictGet(o, "slug", JNull))
  }

  /** The detail URLs of the offers that have a slug, in listing order; the others are skipped. */
  function SlugUrls(offers: seq<Json>): (r: seq<string>)
    ensures |r| <= |offers|
    ensures forall o :: o in offers && HasSlug(o) ==> SlugUrl(o) in r
    ensures forall u :: u in r ==> exists o :: o in offers && HasSlug(o) && u == SlugUrl(o)
    ensures (forall o :: o in offers ==> !HasSlug(o)) ==> r == []
  {
    if |offers| == 0 then []
    else
      var rest := SlugUrls(offers[1..]);
      assert forall o :: o in offers[1..] ==> o in offers;
      assert forall o :: o in offers ==> o == offers[0] || o in offers[1..];
      if HasSlug(offers[0]) then [SlugUrl(offers[0])] + rest else rest
  }

  /** The comprehension works item by item: one offer gives its URL or nothing. */
  lemma SlugUrlsOne(o: Json)
    ensures HasSlug(o) ==> SlugUrls([o]) == [SlugUrl(o)]
    ensures !HasSlug(o) ==> SlugUrls([o]) == []
  {
    assert [o][1..] == [];
  }

  /** ... and the URLs of two listings back to back are the URLs of each, in order. */
  lemma {:induction false} SlugUrlsAppend(a: seq<Json>, b: seq<Json>)
    ensures SlugUrls(a + b) == SlugUrls(a) + SlugUrls(b)
    decreases |a|
  {
    if |a| == 0 {
      assert a + b == b;
    } else {
      assert (a + b)[0] == a[0];
      assert (a + b)[1..] == a[1..] + b;
      SlugUrlsAppend(a[1..], b);
    }
  }

  /**
   * The offer URLs of one listing. A failed or empty fetch counts as `{}`
   * and a missing `content` as `{}`, so both give no offers; a `content`
   * that is present but not a dict (null included) raises AttributeError.
   * An `offers` that is missing, null or empty gives no offers.
   */
  function FetchOfferUrls(api: Api, listing: string): (r: Result<seq<string>, Exc>)
    ensures !Truthy(api(listing)) ==> r == Ok([])
    ensures api(listing).JObj? && Lookup(api(listing).fields, "content").None? ==> r == Ok([])
    ensures Truthy(api(listing)) && !api(listing).JObj? ==> r == Err(AttributeError)
    ensures (api(listing).JObj? && Lookup(api(listing).fields, "content").Some? &&
             !Lookup(api(listing).fields, "content").value.JObj?) ==> r == Err(AttributeError)
    ensures api(listing).JObj? && DictGet(api(listing), "content", JObj([])).JObj? ==>
      var offers := DictGet(DictGet(api(listing), "content", JObj([])), "offers", JArr([]));
      offers.JArr? ==> r == Ok(SlugUrls(offers.items))
  {
    var data := api(listing);
    var page := if Truthy(data) then data else JObj([]);
    var content :- Get(page, "content", JObj([]));
    var listed :- Get(content, "offers", JArr([]));
    var offers := if Truthy(listed) then listed else JArr([]);
    var items :- Iterate(offers);
    Ok(SlugUrls(items))
  }

  /** The tag-filtered offers when there are any, otherwise the unfiltered listing's. */
  function GetOfferUrls(api: Api, position: Position): (r: Result<seq<string>, Exc>)
    ensures FetchOfferUrls(api, ListUrl(position)).Err? ==> r == FetchOfferUrls(api, ListUrl(position))
    ensures FetchOfferUrls(api, ListUrl(position)) == Ok([]) ==> r == FetchOfferUrls(api, BaseUrl)
    ensures FetchOfferUrls(api, ListUrl(position)).Ok? && FetchOfferUrls(api, ListUrl(position)).value != [] ==>
      r == FetchOfferUrls(api, ListUrl(position))
  {
    var urls :- FetchOfferUrls(api, ListUrl(position));
    if |urls| > 0 then Ok(urls) else FetchOfferUrls(api, BaseUrl)
  }

  /** `v or {}`. */
  function OrEmptyDict(v: Json): Json {
    if Truthy(v) then v else JObj([])
  }

  /**
   * The offer inside a detail payload: `(data.get("content") or {}).get("offer") or {}`,
   * kept only when it is a dict, since the next step reads its `slug`.
   */
  function DetailOffer(data: Json): (r: Result<Json, Exc>)
    ensures r.Ok? ==> r.value.JObj?
    ensures !data.JObj? ==> r == Err(AttributeError)
    ensures data.JObj? ==>
      var content := OrEmptyDict(DictGet(data, "content", JNull));
      && (!content.JObj? ==> r == Err(AttributeError))
      && (content.JObj? ==>
            var offer := OrEmptyDict(DictGet(content, "offer", JNull));
            r == if offer.JObj? then Ok(offer) else Err(AttributeError))
    ensures (data.JObj? && OrEmptyDict(DictGet(data, "content", JNull)).JObj? &&
             !Truthy(DictGet(OrEmptyDict(DictGet(data, "content", JNull)), "offer", JNull))) ==> r == Ok(JObj([]))
  {
    var content :- Get(data, "content", JNull);
    var offer :- Get(OrEmptyDict(content), "offer", JNull);
    var o := OrEmptyDict(offer);
    if o.JObj? then Ok(o) else Err(AttributeError)
  }

  /**
   * The job the constructor builds for a slugged offer, before its data is
   * copied in; its company is `(offer.get("organization") or {}).get("name", "")`,
   * read only when that lookup does not raise.
   */
  function Provisional(offer: Json, position: Position, now: nat): (j: Job)
    requires HasSlug(offer)
    ensures j.url == JobBaseUrl + Str(DictGet(offer, "slug", JNull)) && j.position == position && j.website == TrabajoConSentido
    ensures j.publishedAt == now && j.modality.None? && j.isPractice.None?
  {
    var company := Get(OrEmptyDict(DictGet(offer, "organization", JNull)), "name", JStr("")).GetOr(JStr(""));
    NewJob(DictGet(offer, "title", JStr("")), company, JobBaseUrl + Str(DictGet(offer, "slug", JNull)), now, position, TrabajoConSentido)
  }

  /** One offer as a posting, or None when the fetch failed or the offer has no slug. */
  function GetJob(api: Api, url: string, position: Position, now: nat): (r: Result<Option<Job>, Exc>)
    ensures !Truthy(api(url)) ==> r == Ok(None)
    ensures Truthy(api(url)) && DetailOffer(api(url)).Err? ==> r == Err(DetailOffer(api(url)).error)
    ensures Truthy(api(url)) && DetailOffer(api(url)).Ok? && !HasSlug(DetailOffer(api(url)).value) ==> r == Ok(None)
    ensures Truthy(api(url)) && DetailOffer(api(url)).Ok? && HasSlug(DetailOffer(api(url)).value) ==>
      var offer := DetailOffer(api(url)).value;
      var job := SetTcsData(Provisional(offer, position, now), offer);
      && (job.Ok? ==> r == Ok(Some(job.value)))
      && (job.Err? ==> r == Err(job.error))
      && (r.Ok? <==> DictGet(offer, "organization", JObj([])).JObj? && TitleAccepted(DictGet(offer, "title", JNull)) &&
                     TcsDate(DictGet(offer, "moderatedAt", JStr(""))).Ok?)
    ensures r.Ok? && r.value.Some? ==> DetailOffer(api(url)).Ok?
    ensures r.Ok? && r.value.Some? ==>
      var offer := DetailOffer(api(url)).value;
      && HasSlug(offer)
      && r.value.value.url == JobBaseUrl + Str(DictGet(offer, "slug", JNull))
      && r.value.value.position == position && r.value.value.website == TrabajoConSentido
      && r.value.value.title == DictGet(offer, "title", JNull)
  {
    var data := api(url);
    if !Truthy(data) then Ok(None)
    else
      var offer :- DetailOffer(data);
      var slug := DictGet(offer, "slug", JNull);
      if !Truthy(slug) then Ok(None)
      else
        var company :- Get(OrEmptyDict(DictGet(offer, "organization", JNull)), "name", JStr(""));
        var job :- SetTcsData(Provisional(offer, position, now), offer);
        Ok(Some(job))
  }
  /** A posting `get_job` returns carries the fields its offer sets. */
  lemma GetJobFields(api: Api, url: string, position: Position, now: nat)
    ensures var r := GetJob(api, url, position, now);
      r.Ok? && r.value.Some? ==>
        var offer := DetailOffer(api(url)).value;
        var job := r.value.value;
        var org := DictGet(offer, "organization", JObj([]));
        && org.JObj?
        && job.company == DictGet(org, "name", JNull)
        && job.publishedAt == Midnight(TcsDate(DictGet(offer, "moderatedAt", JStr(""))).value)
        && job.location == DictGet(offer, "city", JNull)
        && job.description == DictGet(offer, "description", JNull)
        && job.employmentType == Some(if DictGet(offer, "workingDay", JNull) == JStr("Completa") then FullTime else PartTime)
        && job.modality == TcsModality(DictGet(offer, "workingMode", JNull))
  {
  }


  /**
   * An offer whose `organization` is null passes the provisional company
   * lookup (which treats it as `{}`) but makes the data copy raise, because
   * that lookup only defaults a missing key.
   */
  lemma NullOrganizationRaises(job: Job, offer: Json)
    requires offer.JObj? && Lookup(offer.fields, "organization") == Some(JNull)
    ensures SetTcsData(job, offer) == Err(AttributeError)
    ensures Get(OrEmptyDict(DictGet(offer, "organization", JNull)), "name", JStr("")) == Ok(JStr(""))
  {
  }

  /**
   * One position: the postings its offer URLs' details yield, in URL order,
   * with the URLs `get_job` answered None for skipped; a posting is listed
   * exactly when some URL's fetch returned it.
   */
  function PositionJobs(api: Api, position: Position, now: nat): (r: Result<seq<Job>, Exc>)
    ensures var urls := GetOfferUrls(api, position);
      && (urls.Err? ==> r == Err(urls.error))
      && (urls.Ok? ==> (r.Ok? <==> forall i :: 0 <= i < |urls.value| ==> GetJob(api, urls.value[i], position, now).Ok?))
      && (r.Ok? ==> urls.Ok? && r.value == Present(Results(urls.value, url => GetJob(api, url, position, now))))
      && (r.Ok? ==> forall j :: j in r.value <==>
            exists i :: 0 <= i < |urls.value| && GetJob(api, urls.value[i], position, now) == Ok(Some(j)))
    ensures r.Ok? ==> forall j :: j in r.value ==> j.position == position && j.website == TrabajoConSentido
  {
    var urls :- GetOfferUrls(api, position);
    var jobOf := url => GetJob(api, url, position, now);
    KeepPresent(urls, jobOf)
  }

  /** The spider's run: every position in declaration order. */
  function Run(api: Api, now: nat): (r: Result<seq<Job>, Exc>)
    ensures r.Ok? <==> forall i :: 0 <= i < |Positions| ==> PositionJobs(api, Positions[i], now).Ok?
    ensures r.Ok? ==> r.value == Flatten(OkValues(Positions, p => PositionJobs(api, p, now)))
  {
    var perPosition := p => PositionJobs(api, p, now);
    assert forall i :: 0 <= i < |Positions| ==> perPosition(Positions[i]) == PositionJobs(api, Positions[i], now);
    CollectAll(Positions, perPosition)
  }

  /** The run lists postings grouped by position, positions in declaration order. */
  lemma RunInPositionOrder(api: Api, now: nat)
    ensures Run(api, now).Ok? ==> SortedBy(Run(api, now).value, (j: Job) => j.position.Ordinal())
  {
    if Run(api, now).Ok? {
      var groups := OkValues(Positions, p => PositionJobs(api, p, now));
      PositionsInDeclarationOrder();
      forall i, j: Job | 0 <= i < |groups| && j in groups[i] ensures j.position.Ordinal() == 0 + i {
        assert j in PositionJobs(api, Positions[i], now).value;
      }
      FlattenGrouped(groups, (j: Job) => j.position.Ordinal(), 0);
    }
  }
}
