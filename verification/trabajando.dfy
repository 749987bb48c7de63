/**
 * The Trabajando spider: per position, a search tells how many result
 * pages there are; each page lists offer ids; each offer is fetched and
 * becomes a posting. The API is a parameter: `api(url)` is what the
 * Trabajando fetch helper returns for that URL, `JNull` standing for None.
 */
module Trabajando {

  import opened Wrappers
  import opened Text
  import opened Py
  import opened Calendar
  import opened Enums
  import opened JobModel
  import opened Pipeline

  const BaseUrl: string := "https://www.trabajando.cl/api/searchjob?orden=RANKING"
  const OfferBaseUrl: string := "https://www.trabajando.cl/api/ofertas/"
  const JobBaseUrl: string := "https://www.trabajando.cl/trabajo-empleo/"

  type Api = string -> Json

  /** No position has a career filter: the query fragment is always empty. */
  function CareerQuery(position: Position): string {
    ""
  }

  /** The search URL of a position: keyword, then the (empty) career fragment. */
  function SearchUrl(position: Position): string {
    BaseUrl + "&palabraClave=" + position.Value() + "&" + CareerQuery(position)
  }

  /** The search URL ends in a bare `&`, since the career fragment is empty. */
  lemma SearchUrlEndsWithAmpersand(position: Position)
    ensures SearchUrl(position) == BaseUrl + "&palabraClave=" + position.Value() + "&"
  {
  }

  /** Result page `i + 1` of a search. */
  function PageUrl(search: string, i: nat): string {
    search + "&pagina=" + NatToString(i + 1)
  }

  /** Different page numbers give different page URLs. */
  lemma PageUrlsDistinct(search: string, i: nat, j: nat)
    requires i != j
    ensures PageUrl(search, i) != PageUrl(search, j)
  {
    var prefix := search + "&pagina=";
    assert PageUrl(search, i)[|prefix|..] == NatToString(i + 1);
    assert PageUrl(search, j)[|prefix|..] == NatToString(j + 1);
    NatValueOfNatToString(i + 1);
    NatValueOfNatToString(j + 1);
  }

  /** The result pages of a position: exactly `cantidadPaginas` of them (0 when absent). */
  function GetPages(api: Api, position: Position): (r: Result<seq<string>, Exc>)
    ensures api(SearchUrl(position)) == JNull ==> r == Ok([])
    ensures r.Ok? ==> forall i :: 0 <= i < |r.value| ==> r.value[i] == PageUrl(SearchUrl(position), i)
    ensures var data := api(SearchUrl(position));
      data.JObj? ==>
        var total := DictGet(data, "cantidadPaginas", JInt(0));
        && (r.Ok? <==> AsInt(total).Ok?)
        && (r.Ok? ==> |r.value| == (if AsInt(total).value > 0 then AsInt(total).value else 0))
    ensures api(SearchUrl(position)) != JNull && !api(SearchUrl(position)).JObj? ==> r == Err(AttributeError)
  {
    var url := SearchUrl(position);
    var data := api(url);
    if data == JNull then Ok([])
    else
      var total :- Get(data, "cantidadPaginas", JInt(0));
      var count :- AsInt(total);
      Ok(seq(if count > 0 then count else 0, i requires 0 <= i => PageUrl(url, i)))
  }

  /** The page URLs of one search are pairwise distinct. */
  lemma PagesDistinct(api: Api, position: Position)
    requires GetPages(api, position).Ok?
    ensures var pages := GetPages(api, position).value;
      forall i, j :: 0 <= i < j < |pages| ==> pages[i] != pages[j]
  {
    var pages := GetPages(api, position).value;
    forall i, j | 0 <= i < j < |pages| ensures pages[i] != pages[j] {
      PageUrlsDistinct(SearchUrl(position), i, j);
    }
  }

  /** The detail URL of one listed offer. */
  function OfferUrl(o: Json): (r: Result<string, Exc>)
    ensures r.Ok? <==> o.JObj? && Lookup(o.fields, "idOferta").Some?
    ensures r.Ok? ==> r.value == OfferBaseUrl + Str(Lookup(o.fields, "idOferta").value)
  {
    var id :- Index(o, "idOferta");
    Ok(OfferBaseUrl + Str(id))
  }

  /** One detail URL per listed offer, in listing order. */
  function GetOffers(api: Api, page: string): (r: Result<seq<string>, Exc>)
    ensures api(page) == JNull ==> r == Ok([])
    ensures api(page) != JNull && !api(page).JObj? ==> r == Err(AttributeError)
    ensures api(page).JObj? && DictGet(api(page), "ofertas", JArr([])).JArr? ==>
      var offers := DictGet(api(page), "ofertas", JArr([])).items;
      && (r.Ok? <==> forall i :: 0 <= i < |offers| ==> OfferUrl(offers[i]).Ok?)
      && (r.Ok? ==> |r.value| == |offers| && forall i :: 0 <= i < |offers| ==> OfferUrl(offers[i]) == Ok(r.value[i]))
  {
    var data := api(page);
    if data == JNull then Ok([])
    else
      var offers :- Get(data, "ofertas", JArr([]));
      var items :- Iterate(offers);
      MapAll(items, OfferUrl)
  }

  /** The public URL of an offer: the position (spaces as `%20`), then the offer id. */
  function PostingUrl(position: Position, id: Json): string {
    JobBaseUrl + Replace(position.Value(), ' ', "%20") + "/trabajo/" + Str(id)
  }

  /** No position value has a space, so the position appears in the URL as it is. */
  lemma PostingUrlUsesPositionVerbatim(position: Position, id: Json)
    ensures PostingUrl(position, id) == JobBaseUrl + position.Value() + "/trabajo/" + Str(id)
  {
    PositionValuesHaveNoSpace(position);
  }

  /** The job the constructor builds for detail `data` with offer id `id`, before its data is copied in. */
  function Provisional(data: Json, id: Json, position: Position, now: nat): (j: Job)
    requires data.JObj?
    ensures j.url == PostingUrl(position, id) && j.position == position && j.website == Trabajando
    ensures j.publishedAt == now && j.modality.None? && j.isPractice.None?
  {
    NewJob(
      DictGet(data, "nombreCargo", JStr("Sin título")),
      DictGet(data, "nombreEmpresaFantasia", JStr("Sin empresa")),
      PostingUrl(position, id), now, position, Trabajando)
  }

  /** One offer as a posting, or None when its fetch failed. */
  function GetJob(api: Api, url: string, position: Position, now: nat): (r: Result<Option<Job>, Exc>)
    ensures api(url) == JNull ==> r == Ok(None)
    ensures api(url) != JNull && !api(url).JObj? ==> r == Err(TypeError)
    ensures api(url).JObj? && Lookup(api(url).fields, "idOferta").None? ==> r == Err(KeyError("idOferta"))
    ensures api(url).JObj? && Lookup(api(url).fields, "idOferta").Some? ==>
      var data := api(url);
      var job := SetTrabajandoData(Provisional(data, Lookup(data.fields, "idOferta").value, position, now), data);
      && (job.Ok? ==> r == Ok(Some(job.value)))
      && (job.Err? ==> r == Err(job.error))
      && (r.Ok? <==> DictGet(data, "ubicacion", JObj([])).JObj? && TitleAccepted(DictGet(data, "nombreCargo", JNull)) &&
                     TrabajandoDate(DictGet(data, "fechaPublicacionFormatoIngles", JStr("2000-01-01"))).Ok?)
    ensures r.Ok? && r.value.Some? ==>
      var data := api(url);
      && data.JObj? && Lookup(data.fields, "idOferta").Some?
      && r.value.value.url == PostingUrl(position, Lookup(data.fields, "idOferta").value)
      && r.value.value.position == position && r.value.value.website == Trabajando
      && r.value.value.title == DictGet(data, "nombreCargo", JNull)
      && r.value.value.company == DictGet(data, "nombreEmpresaFantasia", JNull)
  {
    var data := api(url);
    if data == JNull then Ok(None)
    else
      var id :- Index(data, "idOferta");
      var job :- SetTrabajandoData(Provisional(data, id, position, now), data);
      Ok(Some(job))
  }
  /** A posting `get_job` returns carries the fields the detail's data sets. */
  lemma GetJobFields(api: Api, url: string, position: Position, now: nat)
    ensures var r := GetJob(api, url, position, now);
      r.Ok? && r.value.Some? ==>
        var data := api(url);
        var job := r.value.value;
        var place := DictGet(data, "ubicacion", JObj([]));
        var jornada := DictGet(data, "nombreJornada", JStr(""));
        && place.JObj?
        && job.publishedAt == Midnight(TrabajandoDate(DictGet(data, "fechaPublicacionFormatoIngles", JStr("2000-01-01"))).value)
        && job.location == DictGet(place, "direccion", JNull)
        && job.description == JStr(Str(DictGet(data, "descripcionOferta", JNull)) + "\n" + Str(DictGet(data, "requisitosMinimos", JNull)))
        && job.employmentType == Some(if jornada == JStr("Part Time") then PartTime else FullTime)
        && job.modality == Some(TrabajandoModality(jornada))
  {
  }


  /** The detail URLs of one position: every page's offers, concatenated in page order. */
  function PositionOffers(api: Api, position: Position): (r: Result<seq<string>, Exc>)
    ensures api(SearchUrl(position)) == JNull ==> r == Ok([])
    ensures var pages := GetPages(api, position);
      && (pages.Err? ==> r == Err(pages.error))
      && (pages.Ok? ==> (r.Ok? <==> forall i :: 0 <= i < |pages.value| ==> GetOffers(api, pages.value[i]).Ok?))
      && (r.Ok? ==> pages.Ok? && r.value == Flatten(OkValues(pages.value, page => GetOffers(api, page))))
    ensures r.Ok? ==> forall u :: u in r.value <==>
      exists i :: 0 <= i < |GetPages(api, position).value| && u in GetOffers(api, GetPages(api, position).value[i]).GetOr([])
  {
    var pages :- GetPages(api, position);
    var offersOf := page => GetOffers(api, page);
    var offers := CollectAll(pages, offersOf);
    if offers.Ok? then
      forall u ensures u in offers.value <==> exists i :: 0 <= i < |pages| && u in GetOffers(api, pages[i]).GetOr([]) {
        CollectAllMember(pages, offersOf, u);
      }
      offers
    else offers
  }

  /**
   * One position: the postings of its offers whose fetch succeeded, in offer
   * order, with the offers `get_job` answered None for skipped; a posting is
   * listed exactly when some offer's fetch returned it.
   */
  function PositionJobs(api: Api, position: Position, now: nat): (r: Result<seq<Job>, Exc>)
    ensures api(SearchUrl(position)) == JNull ==> r == Ok([])
    ensures var offers := PositionOffers(api, position);
      && (offers.Err? ==> r == Err(offers.error))
      && (offers.Ok? ==> (r.Ok? <==> forall i :: 0 <= i < |offers.value| ==> GetJob(api, offers.value[i], position, now).Ok?))
      && (r.Ok? ==> offers.Ok? && r.value == Present(Results(offers.value, url => GetJob(api, url, position, now))))
      && (r.Ok? ==> forall j :: j in r.value <==>
            exists i :: 0 <= i < |offers.value| && GetJob(api, offers.value[i], position, now) == Ok(Some(j)))
    ensures r.Ok? ==> forall j :: j in r.value ==> j.position == position && j.website == Trabajando
  {
    var offers :- PositionOffers(api, position);
    var jobOf := url => GetJob(api, url, position, now);
    KeepPresent(offers, jobOf)
  }

  /** The spider's run: every position in declaration order, without removing duplicates. */
  function Run(api: Api, now: nat): (r: Result<seq<Job>, Exc>)
    ensures r.Ok? <==> forall i :: 0 <= i < |Positions| ==> PositionJobs(api, Positions[i], now).Ok?
    ensures r.Ok? ==> r.value == Flatten(OkValues(Positions, p => PositionJobs(api, p, now)))
  {
    CollectAll(Positions, p => PositionJobs(api, p, now))
  }

  /** The run lists postings grouped by position, positions in declaration order. */
  lemma RunInPositionOrder(api: Api, now: nat)
    ensures Run(api, now).Ok? ==> SortedBy(Run(api, now).value, (j: Job) => j.position.Ordinal())
  {
    if Run(api, now).Ok? {
      var groups := OkValues(Positions, p => PositionJobs(api, p, now));
      PositionsInDeclarationOrder();
      forall i, j: Job | 0 <= i < |groups| && j in groups[i] ensures j.position.Ordinal() == 0 + i {
        assert j in PositionJobs(api, Positions[i], now).value;
      }
      FlattenGrouped(groups, (j: Job) => j.position.Ordinal(), 0);
    }
  }
}
