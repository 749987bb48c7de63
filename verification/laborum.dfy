/**
 * The Laborum spider: one search request per position tells how many
 * result pages there are; each page's offers become postings; positions
 * are visited in declaration order and their pages in page order.
 *
 * The API is a parameter: `api(request)` is what the Laborum fetch helper
 * returns for that search body, `JNull` standing for None.
 */
module Laborum {

  import opened Wrappers
  import opened Py
  import opened Calendar
  import opened Enums
  import opened JobModel
  import opened Pipeline

  const JobBaseUrl: string := "https://www.laborum.cl/empleos/"

  /** The JSON body of a search: the query text and the 1-based page. */
  datatype SearchRequest = SearchRequest(query: string, page: int)

  type Api = SearchRequest -> Json

  /** Python's `a // b` on integers: rounds toward negative infinity, and raises for `b == 0`. */
  function FloorDiv(a: int, b: int): (r: Result<int, Exc>)
    ensures r.Err? <==> b == 0
    ensures r.Err? ==> r.error == ZeroDivisionError
    ensures b > 0 ==> r.value * b <= a < r.value * b + b
    ensures b < 0 ==> r.value * b + b < a <= r.value * b
  {
    if b == 0 then Err(ZeroDivisionError)
    else if b > 0 then Ok(a / b)
    else Ok((-a) / (-b))
  }

  /** `-(-total // size)`: the number of pages of `size` results that hold `total` results. */
  function PageCount(total: int, size: int): (r: Result<int, Exc>)
    ensures r.Err? <==> size == 0
    ensures r.Err? ==> r.error == ZeroDivisionError
    ensures size > 0 ==> (r.value - 1) * size < total <= r.value * size
    ensures size > 0 && total <= 0 ==> r.value <= 0
  {
    var q :- FloorDiv(-total, size);
    Ok(-q)
  }

  /** The number stored under `key`: `data[key]` used in arithmetic. */
  function IntAt(data: Json, key: string): (r: Result<int, Exc>)
    ensures r.Ok? ==> data.JObj? && Lookup(data.fields, key).Some?
    ensures r.Ok? && Lookup(data.fields, key).value.JInt? ==> r.value == Lookup(data.fields, key).value.i
  {
    var v :- Index(data, key);
    AsInt(v)
  }

  /** The pages `1..n` of a position's search, where `n` covers every result. */
  function GetPages(api: Api, position: Position): (r: Result<seq<int>, Exc>)
    ensures api(SearchRequest(position.Value(), 1)) == JNull ==> r == Ok([])
    ensures r.Ok? ==> forall i :: 0 <= i < |r.value| ==> r.value[i] == i + 1
    ensures var data := api(SearchRequest(position.Value(), 1));
      data != JNull ==>
        && (r.Ok? <==> IntAt(data, "totalSearched").Ok? && IntAt(data, "size").Ok? && IntAt(data, "size").value != 0)
        && (IntAt(data, "totalSearched").Ok? && IntAt(data, "size") == Ok(0) ==> r == Err(ZeroDivisionError))
        && (r.Ok? && IntAt(data, "size").value > 0 ==>
              var total, size := IntAt(data, "totalSearched").value, IntAt(data, "size").value;
              && (total <= 0 ==> r.value == [])
              && (total > 0 ==> (|r.value| - 1) * size < total <= |r.value| * size))
  {
    var data := api(SearchRequest(position.Value(), 1));
    if data == JNull then Ok([])
    else
      var total :- IntAt(data, "totalSearched");
      var size :- IntAt(data, "size");
      var n :- PageCount(total, size);
      Ok(seq(if n > 0 then n else 0, i => i + 1))
  }

  /** The provisional company: a dict's `nombre`, else the value's text, else "Sin empresa". */
  function ProvisionalCompany(empresa: Json): (r: Json)
    ensures empresa.JObj? ==> r == DictGet(empresa, "nombre", JStr("Sin empresa"))
    ensures !empresa.JObj? ==> r.JStr? && r.s != ""
    ensures !empresa.JObj? && Str(empresa) != "" ==> r == JStr(Str(empresa))
  {
    if empresa.JObj? then DictGet(empresa, "nombre", JStr("Sin empresa"))
    else if Str(empresa) == "" then JStr("Sin empresa")
    else JStr(Str(empresa))
  }

  /** The job the constructor builds for offer `c` with id `id`, before its data is copied in. */
  function Provisional(c: Json, id: Json, position: Position, now: nat): (j: Job)
    requires c.JObj?
    ensures j.url == JobBaseUrl + Str(id) && j.position == position && j.website == Laborum
    ensures j.publishedAt == now && j.modality.None? && j.isPractice.None?
  {
    NewJob(
      DictGet(c, "titulo", JStr("Sin título")),
      ProvisionalCompany(DictGet(c, "empresa", JObj([]))),
      JobBaseUrl + Str(id), now, position, Laborum)
  }

  /**
   * One offer of a results page as a posting. The provisional title and
   * company given to the constructor are overwritten by the raw payload
   * values when the offer's data is copied in.
   */
  function OfferJob(c: Json, position: Position, now: nat): (r: Result<Job, Exc>)
    ensures !c.JObj? ==> r == Err(TypeError)
    ensures c.JObj? && Lookup(c.fields, "id").Some? ==>
      var date := LaborumDate(DictGet(c, "fechaPublicacion", JStr("01-01-2000")));
      && r == SetLaborumData(Provisional(c, Lookup(c.fields, "id").value, position, now), c)
      && (r.Ok? <==> date.Ok? && TitleAccepted(DictGet(c, "titulo", JNull)))
      && (r.Ok? ==>
            && r.value.publishedAt == Midnight(date.value)
            && r.value.location == DictGet(c, "localizacion", JNull)
            && r.value.description == DictGet(c, "detalle", JNull)
            && r.value.employmentType == Some(if DictGet(c, "tipoTrabajo", JNull) == JStr("Full-time") then FullTime else PartTime)
            && r.value.modality == LaborumModality(DictGet(c, "modalidadTrabajo", JNull)))
    ensures c.JObj? && Lookup(c.fields, "id").None? ==> r == Err(KeyError("id"))
    ensures r.Ok? ==> c.JObj? && Lookup(c.fields, "id").Some?
    ensures r.Ok? ==> r.value.url == JobBaseUrl + Str(Lookup(c.fields, "id").value)
    ensures r.Ok? ==> r.value.position == position && r.value.website == Laborum
    ensures r.Ok? ==> r.value.title == DictGet(c, "titulo", JNull) && r.value.company == DictGet(c, "empresa", JNull)
  {
    var id :- Index(c, "id");
    SetLaborumData(Provisional(c, id, position, now), c)
  }

  /** `[job for c in entries]`, each built by `OfferJob`: all of them in order, or the first exception. */
  function EntryJobs(entries: seq<Json>, position: Position, now: nat): (r: Result<seq<Job>, Exc>)
    ensures r.Ok? <==> forall i :: 0 <= i < |entries| ==> OfferJob(entries[i], position, now).Ok?
    ensures r.Ok? ==> |r.value| == |entries| && forall i :: 0 <= i < |entries| ==> OfferJob(entries[i], position, now) == Ok(r.value[i])
    ensures r.Err? ==> exists i :: 0 <= i < |entries| && OfferJob(entries[i], position, now) == Err(r.error)
  {
    var f := c => OfferJob(c, position, now);
    var r := MapAll(entries, f);
    assert forall i :: 0 <= i < |entries| ==> f(entries[i]) == OfferJob(entries[i], position, now);
    r
  }

  /** The offers of one decoded results page (`JNull` when the fetch failed), in page order. */
  function PageOffers(data: Json, position: Position, now: nat): (r: Result<seq<Job>, Exc>)
    ensures data == JNull ==> r == Ok([])
    ensures data.JObj? && Lookup(data.fields, "content").None? ==> r == Ok([])
    ensures data.JObj? && Lookup(data.fields, "content").Some? && Lookup(data.fields, "content").value.JArr? ==>
      var entries := Lookup(data.fields, "content").value.items;
      && (r.Ok? <==> forall i :: 0 <= i < |entries| ==> OfferJob(entries[i], position, now).Ok?)
      && (r.Ok? ==> |r.value| == |entries| && forall i :: 0 <= i < |entries| ==> OfferJob(entries[i], position, now) == Ok(r.value[i]))
    ensures r.Ok? ==> forall i :: 0 <= i < |r.value| ==> r.value[i].position == position && r.value[i].website == Laborum
  {
    if data == JNull then Ok([])
    else
      var has :- HasMember(data, "content");
      if !has then Ok([])
      else
        var content :- Index(data, "content");
        assert content == Lookup(data.fields, "content").value;
        var entries :- Iterate(content);
        assert content.JArr? ==> entries == content.items;
        EntryJobs(entries, position, now)
  }

  /** The offers of results page `page` of a position's search. */
  function GetJobs(api: Api, position: Position, page: int, now: nat): (r: Result<seq<Job>, Exc>)
    ensures api(SearchRequest(position.Value(), page)) == JNull ==> r == Ok([])
    ensures var data := api(SearchRequest(position.Value(), page));
      data.JObj? && Lookup(data.fields, "content").None? ==> r == Ok([])
    ensures r.Ok? ==> forall i :: 0 <= i < |r.value| ==> r.value[i].position == position && r.value[i].website == Laborum
  {
    var data := api(SearchRequest(position.Value(), page));
    PageOffers(data, position, now)
  }

  /** A results page whose `content` is a list yields one posting per entry, or the first entry's exception. */
  lemma GetJobsEntries(api: Api, position: Position, page: int, now: nat)
    ensures var data := api(SearchRequest(position.Value(), page));
      data.JObj? && Lookup(data.fields, "content").Some? && Lookup(data.fields, "content").value.JArr? ==>
        var entries := Lookup(data.fields, "content").value.items;
        var r := GetJobs(api, position, page, now);
        && (r.Ok? <==> forall i :: 0 <= i < |entries| ==> OfferJob(entries[i], position, now).Ok?)
        && (r.Ok? ==> |r.value| == |entries| && forall i :: 0 <= i < |entries| ==> OfferJob(entries[i], position, now) == Ok(r.value[i]))
  {
  }

  /**
   * All pages of one position: the postings of every page, concatenated in
   * page order; a posting is listed exactly when some page lists it.
   */
  function PositionJobs(api: Api, position: Position, now: nat): (r: Result<seq<Job>, Exc>)
    ensures api(SearchRequest(position.Value(), 1)) == JNull ==> r == Ok([])
    ensures var pages := GetPages(api, position);
      && (pages.Err? ==> r == Err(pages.error))
      && (pages.Ok? ==> (r.Ok? <==> forall i :: 0 <= i < |pages.value| ==> GetJobs(api, position, pages.value[i], now).Ok?))
      && (r.Ok? ==> pages.Ok? && r.value == Flatten(OkValues(pages.value, page => GetJobs(api, position, page, now))))
      && (r.Ok? ==> forall j :: j in r.value <==>
            exists i :: 0 <= i < |pages.value| && j in GetJobs(api, position, pages.value[i], now).GetOr([]))
    ensures r.Ok? ==> forall j :: j in r.value ==> j.position == position && j.website == Laborum
  {
    var pages :- GetPages(api, position);
    var f := page => GetJobs(api, position, page, now);
    var jobs := CollectAll(pages, f);
    if jobs.Ok? then
      forall j ensures j in jobs.value <==> exists i :: 0 <= i < |pages| && j in f(pages[i]).GetOr([]) {
        CollectAllMember(pages, f, j);
      }
      jobs
    else jobs
  }

  /** The spider's run: every position in declaration order; an exception abandons the run. */
  function Run(api: Api, now: nat): (r: Result<seq<Job>, Exc>)
    ensures r.Ok? <==> forall i :: 0 <= i < |Positions| ==> PositionJobs(api, Positions[i], now).Ok?
    ensures r.Ok? ==> r.value == Flatten(OkValues(Positions, p => PositionJobs(api, p, now)))
  {
    CollectAll(Positions, p => PositionJobs(api, p, now))
  }

  /** The run lists postings grouped by position, positions in declaration order. */
  lemma RunInPositionOrder(api: Api, now: nat)
    ensures Run(api, now).Ok? ==> SortedBy(Run(api, now).value, (j: Job) => j.position.Ordinal())
  {
    if Run(api, now).Ok? {
      var f := p => PositionJobs(api, p, now);
      var groups := OkValues(Positions, f);
      PositionsInDeclarationOrder();
      forall i, j: Job | 0 <= i < |groups| && j in groups[i] ensures j.position.Ordinal() == 0 + i {
        assert j in PositionJobs(api, Positions[i], now).value;
      }
      FlattenGrouped(groups, (j: Job) => j.position.Ordinal(), 0);
    }
  }

  /** A position whose search fetch fails contributes nothing, and the others still run. */
  lemma FailedSearchContributesNothing(api: Api, now: nat, position: Position)
    requires api(SearchRequest(position.Value(), 1)) == JNull
    ensures PositionJobs(api, position, now) == Ok([])
  {
  }
}
