/**
 * The CSV export script: which spiders run (a comma-separated list of
 * names), how a failing spider is isolated from the others, the optional
 * dedup by url, and how each posting becomes one row of thirteen text
 * cells. Writing the file itself is left to the environment; the model
 * ends at the list of rows handed to the CSV writer.
 */
module Export {

  import opened Wrappers
  import opened Text
  import opened Py
  import opened Calendar
  import opened Enums
  import opened JobModel

  // ------------------------------------------------------------ scalar cells

  /** An attribute value as the scalar rendering distinguishes it. */
  datatype Scalar =
    | NoneValue            // Python's None, and an attribute the posting lacks
    | EnumValue(value: string)
    | DateTime(t: nat)
    | Plain(v: Json)       // anything else, rendered with `str`

  /** How a payload value stored on a posting presents itself: `None` is its own case. */
  function FromJson(v: Json): (s: Scalar)
    ensures s.NoneValue? <==> v.JNull?
    ensures s.Plain? ==> s.v == v
  {
    if v.JNull? then NoneValue else Plain(v)
  }

  /** The text one cell receives: empty for None, the value of an enum, ISO 8601 to the second for a datetime, `str` otherwise. */
  function ToScalar(s: Scalar): string {
    match s
    case NoneValue => ""
    case EnumValue(v) => v
    case DateTime(t) => IsoFormat(t)
    case Plain(v) => Str(v)
  }

  // ------------------------------------------------------------ rows

  /** The thirteen columns, in the order the CSV header lists them. */
  const CsvFields: seq<string> := [
    "title", "company", "location", "position", "website", "type_", "modality",
    "salary", "remote", "isPractice", "published_at", "url", "description"]

  /** An optional enum member as the attribute holds it. */
  function OptionalEnum(v: Option<string>): Scalar {
    match v
    case Some(s) => EnumValue(s)
    case None => NoneValue
  }

  function OptionalBool(v: Option<bool>): Scalar {
    match v
    case Some(b) => Plain(JBool(b))
    case None => NoneValue
  }

  /**
   * The posting's attribute dictionary in the order the constructor assigns
   * the attributes; `isPractice` is present only once the internship check
   * has set it.
   */
  function Attributes(job: Job): seq<(string, Scalar)> {
    [("title", FromJson(job.title)),
     ("company", FromJson(job.company)),
     ("url", Plain(JStr(job.url))),
     ("published_at", DateTime(job.publishedAt)),
     ("position", EnumValue(job.position.Value())),
     ("website", EnumValue(job.website.Value())),
     ("modality", OptionalEnum(if job.modality.Some? then Some(job.modality.value.Value()) else None)),
     ("location", FromJson(job.location)),
     ("description", FromJson(job.description)),
     ("salary", if job.salary.Some? then Plain(JStr(job.salary.value)) else NoneValue),
     ("type_", OptionalEnum(if job.employmentType.Some? then Some(job.employmentType.value.Value()) else None)),
     ("remote", OptionalBool(job.remote))]
    + (if job.isPractice.Some? then [("isPractice", Plain(JBool(job.isPractice.value)))] else [])
  }

  /** `d.get(key)`: the first entry under `key`, or None. */
  function AttrGet(d: seq<(string, Scalar)>, key: string): (r: Scalar)
    ensures (forall i :: 0 <= i < |d| ==> d[i].0 != key) ==> r == NoneValue
    ensures (exists i :: 0 <= i < |d| && d[i].0 == key) ==> exists i :: 0 <= i < |d| && d[i] == (key, r)
  {
    if |d| == 0 then NoneValue
    else if d[0].0 == key then d[0].1
    else
      assert forall i :: 1 <= i < |d| ==> d[1..][i - 1] == d[i];
      AttrGet(d[1..], key)
  }

  /** One CSV row: each column paired with the rendering of the attribute of that name. */
  function JobToRow(job: Job): (row: seq<(string, string)>)
    ensures |row| == |CsvFields|
    ensures forall i :: 0 <= i < |row| ==> row[i].0 == CsvFields[i]
  {
    var d := Attributes(job);
    seq(|CsvFields|, i requires 0 <= i < |CsvFields| => (CsvFields[i], ToScalar(AttrGet(d, CsvFields[i]))))
  }

  /** The text a payload value stored on the posting renders to. */
  function JsonCell(v: Json): string {
    if v.JNull? then "" else Str(v)
  }

  function BoolCell(v: Option<bool>): string {
    match v
    case Some(b) => if b then "True" else "False"
    case None => ""
  }

  /** The lookup finds `key` at `k` when no earlier entry carries that name. */
  lemma {:induction false} AttrGetAt(d: seq<(string, Scalar)>, key: string, k: nat)
    requires k < |d| && d[k].0 == key
    requires forall i :: 0 <= i < k ==> d[i].0 != key
    ensures AttrGet(d, key) == d[k].1
  {
    if k > 0 {
      assert forall i :: 0 <= i < k - 1 ==> d[1..][i] == d[i + 1];
      AttrGetAt(d[1..], key, k - 1);
    }
  }

  /** The twelve names the constructor assigns, pairwise distinct and distinct from `isPractice`. */
  lemma AttributeNames(job: Job)
    ensures |Attributes(job)| == 12 + (if job.isPractice.Some? then 1 else 0)
    ensures Attributes(job)[0].0 == "title" && Attributes(job)[1].0 == "company"
    ensures Attributes(job)[2].0 == "url" && Attributes(job)[3].0 == "published_at"
    ensures Attributes(job)[4].0 == "position" && Attributes(job)[5].0 == "website"
    ensures Attributes(job)[6].0 == "modality" && Attributes(job)[7].0 == "location"
    ensures Attributes(job)[8].0 == "description" && Attributes(job)[9].0 == "salary"
    ensures Attributes(job)[10].0 == "type_" && Attributes(job)[11].0 == "remote"
    ensures job.isPractice.Some? ==> Attributes(job)[12].0 == "isPractice"
  {
  }

  /** Distinct literal names, checked by their lengths and first letters. */
  lemma NamesDiffer()
    ensures forall i, j :: 0 <= i < j < 12 ==> AttributeOrder[i] != AttributeOrder[j]
    ensures forall i :: 0 <= i < 12 ==> AttributeOrder[i] != "isPractice"
  {
  }

  /** The attribute names in the order `Attributes` lists them. */
  const AttributeOrder: seq<string> := [
    "title", "company", "url", "published_at", "position", "website", "modality",
    "location", "description", "salary", "type_", "remote"]

  /** Looking up the `k`-th constructor attribute by name finds it. */
  lemma AttrGetConstructor(job: Job, k: nat)
    requires k < 12
    ensures AttrGet(Attributes(job), AttributeOrder[k]) == Attributes(job)[k].1
  {
    AttributeNames(job);
    NamesDiffer();
    AttrGetAt(Attributes(job), AttributeOrder[k], k);
  }

  /** `isPractice` renders its flag when set and the empty cell while the attribute is missing. */
  lemma AttrGetPractice(job: Job)
    ensures AttrGet(Attributes(job), "isPractice") == OptionalBool(job.isPractice)
  {
    AttributeNames(job);
    NamesDiffer();
    if job.isPractice.Some? {
      AttrGetAt(Attributes(job), "isPractice", 12);
    }
  }

  /** The `i`-th column renders the `k`-th constructor attribute when their names agree. */
  lemma Column(job: Job, i: nat, k: nat)
    requires i < 13 && k < 12 && CsvFields[i] == AttributeOrder[k]
    ensures JobToRow(job)[i].1 == ToScalar(Attributes(job)[k].1)
  {
    AttrGetConstructor(job, k);
  }

  /** What the constructor stores under each of the first twelve attribute names. */
  lemma AttributeValues(job: Job)
    ensures |Attributes(job)| >= 12
    ensures Attributes(job)[0].1 == FromJson(job.title) && Attributes(job)[1].1 == FromJson(job.company)
    ensures Attributes(job)[7].1 == FromJson(job.location) && Attributes(job)[8].1 == FromJson(job.description)
  {
  }

  /** A column holding a payload value renders it through `str`, None as the empty cell. */
  lemma JsonColumn(job: Job, i: nat, k: nat, v: Json)
    requires i < 13 && k < 12 && CsvFields[i] == AttributeOrder[k]
    requires Attributes(job)[k].1 == FromJson(v)
    ensures JobToRow(job)[i].1 == JsonCell(v)
  {
    Column(job, i, k);
  }

  /** The payload text columns: `str` of the stored value, the empty cell for None. */
  lemma RowTextColumns(job: Job)
    ensures JobToRow(job)[0].1 == JsonCell(job.title)
    ensures JobToRow(job)[1].1 == JsonCell(job.company)
    ensures JobToRow(job)[2].1 == JsonCell(job.location)
    ensures JobToRow(job)[12].1 == JsonCell(job.description)
  {
    AttributeValues(job);
    JsonColumn(job, 0, 0, job.title);
    JsonColumn(job, 1, 1, job.company);
    JsonColumn(job, 2, 7, job.location);
    JsonColumn(job, 12, 8, job.description);
  }

  /** The enum columns: the member's value, the empty cell while unset. */
  lemma RowEnumColumns(job: Job)
    ensures JobToRow(job)[3].1 == job.position.Value()
    ensures JobToRow(job)[4].1 == job.website.Value()
    ensures JobToRow(job)[5].1 == (if job.employmentType.Some? then job.employmentType.value.Value() else "")
    ensures JobToRow(job)[6].1 == (if job.modality.Some? then job.modality.value.Value() else "")
  {
    EnumAttributes(job);
    Column(job, 3, 4);
    Column(job, 4, 5);
    OptionalEnumColumn(job, 5, 10, if job.employmentType.Some? then Some(job.employmentType.value.Value()) else None);
    OptionalEnumColumn(job, 6, 6, if job.modality.Some? then Some(job.modality.value.Value()) else None);
  }

  /** What the constructor stores under the position, website, modality and type names. */
  lemma EnumAttributes(job: Job)
    ensures |Attributes(job)| >= 12
    ensures Attributes(job)[4].1 == EnumValue(job.position.Value())
    ensures Attributes(job)[5].1 == EnumValue(job.website.Value())
    ensures Attributes(job)[6].1 == OptionalEnum(if job.modality.Some? then Some(job.modality.value.Value()) else None)
    ensures Attributes(job)[10].1 == OptionalEnum(if job.employmentType.Some? then Some(job.employmentType.value.Value()) else None)
  {
  }

  /** A column holding an optional member renders its value, or the empty cell while unset. */
  lemma OptionalEnumColumn(job: Job, i: nat, k: nat, v: Option<string>)
    requires i < 13 && k < 12 && CsvFields[i] == AttributeOrder[k]
    requires Attributes(job)[k].1 == OptionalEnum(v)
    ensures JobToRow(job)[i].1 == (if v.Some? then v.value else "")
  {
    Column(job, i, k);
  }

  /** Salary and the remote flag: their text, the empty cell while unset. */
  lemma RowSalaryRemote(job: Job)
    ensures JobToRow(job)[7].1 == (if job.salary.Some? then job.salary.value else "")
    ensures JobToRow(job)[8].1 == BoolCell(job.remote)
  {
    var salary := if job.salary.Some? then Plain(JStr(job.salary.value)) else NoneValue;
    assert Attributes(job)[9].1 == salary && Attributes(job)[11].1 == OptionalBool(job.remote);
    Column(job, 7, 9);
    Column(job, 8, 11);
  }

  /** The internship flag: its text once decided, the empty cell while the attribute is missing. */
  lemma RowPractice(job: Job)
    ensures JobToRow(job)[9].1 == BoolCell(job.isPractice)
  {
    AttrGetPractice(job);
  }

  /** The publication instant in ISO 8601 to the second. */
  lemma RowPublished(job: Job)
    ensures JobToRow(job)[10].1 == IsoFormat(job.publishedAt)
  {
    Column(job, 10, 3);
  }

  /** The url as the posting holds it. */
  lemma RowUrl(job: Job)
    ensures JobToRow(job)[11].1 == job.url
  {
    Column(job, 11, 2);
  }

  /**
   * Column by column, what a row holds: the payload text fields through
   * `str` (None gives the empty cell), the enum values of position,
   * website, employment type and modality, the publication instant in ISO
   * 8601, the url as is, and the internship flag only once it was decided.
   */
  lemma RowColumns(job: Job)
    ensures JobToRow(job)[0].1 == JsonCell(job.title)
    ensures JobToRow(job)[1].1 == JsonCell(job.company)
    ensures JobToRow(job)[2].1 == JsonCell(job.location)
    ensures JobToRow(job)[3].1 == job.position.Value()
    ensures JobToRow(job)[4].1 == job.website.Value()
    ensures JobToRow(job)[5].1 == (if job.employmentType.Some? then job.employmentType.value.Value() else "")
    ensures JobToRow(job)[6].1 == (if job.modality.Some? then job.modality.value.Value() else "")
    ensures JobToRow(job)[7].1 == (if job.salary.Some? then job.salary.value else "")
    ensures JobToRow(job)[8].1 == BoolCell(job.remote)
    ensures JobToRow(job)[9].1 == BoolCell(job.isPractice)
    ensures JobToRow(job)[10].1 == IsoFormat(job.publishedAt)
    ensures JobToRow(job)[11].1 == job.url
    ensures JobToRow(job)[12].1 == JsonCell(job.description)
  {
    RowTextColumns(job);
    RowEnumColumns(job);
    RowSalaryRemote(job);
    RowPractice(job);
    RowPublished(job);
    RowUrl(job);
  }

  /** A posting whose title never reached the internship check exports an empty `isPractice` cell. */
  lemma MissingPracticeIsEmpty(job: Job)
    requires job.isPractice.None?
    ensures JobToRow(job)[9] == ("isPractice", "")
  {
    RowPractice(job);
  }

  /** The position and website cells tell postings apart exactly as their enum members do. */
  lemma EnumColumnsIdentify(a: Job, b: Job)
    ensures JobToRow(a)[3].1 == JobToRow(b)[3].1 <==> a.position == b.position
    ensures JobToRow(a)[4].1 == JobToRow(b)[4].1 <==> a.website == b.website
  {
    RowEnumColumns(a);
    RowEnumColumns(b);
    PositionValuesDistinct(a.position, b.position);
    WebsiteValuesDistinct(a.website, b.website);
  }

  /** The date part of an ISO date holds digits and dashes only. */
  lemma YmdHasNoT(d: Date)
    requires ValidDate(d)
    ensures 'T' !in FormatYmd(d)
  {
    var y, m, dd := Digits4(d.year), Digits2(d.month), Digits2(d.day);
    assert 'T' !in y && 'T' !in m && 'T' !in dd;
    assert FormatYmd(d) == y + "-" + m + "-" + dd;
  }

  /** A posting dated at a day's midnight exports a timestamp whose date part parses back to that day. */
  lemma PublishedDateReadsBack(job: Job, d: Date)
    requires ValidDate(d) && job.publishedAt == Midnight(d)
    ensures JobToRow(job)[10].1 == FormatYmd(d) + "T00:00:00"
    ensures ParseYmd(SplitOn(JobToRow(job)[10].1, 'T')[0]) == Ok(d)
  {
    RowPublished(job);
    IsoFormatOfMidnight(d);
    YmdHasNoT(d);
    DatePart(FormatYmd(d));
    ParseFormatYmd(d);
  }

  /** Splitting a midnight timestamp on `T` gives the date part first. */
  lemma DatePart(ymd: string)
    requires 'T' !in ymd
    ensures SplitOn(ymd + "T00:00:00", 'T')[0] == ymd
  {
    var tail := "00:00:00";
    assert "T00:00:00" == ['T'] + tail;
    FirstPart(ymd, 'T', tail);
  }

  /** The first part of a split is the text before the first separator. */
  lemma FirstPart(a: string, sep: char, b: string)
    requires sep !in a
    ensures SplitOn(a + ([sep] + b), sep)[0] == a
  {
    SplitOnPiece(a, sep, b);
    assert a + ([sep] + b) == a + [sep] + b;
  }

  // ------------------------------------------------------------ dedup by url

  /** The urls of `jobs`, in order. */
  function UrlsOf(jobs: seq<Job>): (us: seq<string>)
    ensures |us| == |jobs| && forall i :: 0 <= i < |jobs| ==> us[i] == jobs[i].url
  {
    seq(|jobs|, i requires 0 <= i < |jobs| => jobs[i].url)
  }

  /**
   * `uniq[key] = j` on an insertion-ordered dict whose values carry their own
   * key: a known url has its job replaced where it stands, a new url is
   * added at the end.
   */
  function Store(d: seq<Job>, j: Job): (r: seq<Job>)
    ensures UrlsOf(r) == if j.url in UrlsOf(d) then UrlsOf(d) else UrlsOf(d) + [j.url]
    ensures forall k :: 0 <= k < |d| ==> r[k] == (if d[k].url == j.url then j else d[k])
    ensures j.url !in UrlsOf(d) ==> r[|d|] == j
  {
    if j.url in UrlsOf(d) then
      var r := seq(|d|, k requires 0 <= k < |d| => if d[k].url == j.url then j else d[k]);
      assert UrlsOf(r) == UrlsOf(d);
      r
    else
      var r := d + [j];
      assert UrlsOf(r) == UrlsOf(d) + [j.url];
      r
  }

  /** The dedup loop: each job with a non-empty url is stored under it; the rest are dropped. */
  function DedupJobs(jobs: seq<Job>): seq<Job>
    decreases |jobs|
  {
    if |jobs| == 0 then []
    else
      var rest := DedupJobs(jobs[..|jobs| - 1]);
      var j := jobs[|jobs| - 1];
      if j.url == "" then rest else Store(rest, j)
  }

  /** Reference order: the distinct non-empty urls of `jobs`, each where it first appears. */
  function FirstOrder(jobs: seq<Job>): seq<string>
    decreases |jobs|
  {
    if |jobs| == 0 then []
    else
      var rest := FirstOrder(jobs[..|jobs| - 1]);
      var u := jobs[|jobs| - 1].url;
      if u == "" || u in rest then rest else rest + [u]
  }

  predicate Distinct(us: seq<string>) {
    forall i, j :: 0 <= i < j < |us| ==> us[i] != us[j]
  }

  /** The first appearance of `u` comes before any appearance of `v`. */
  ghost predicate AppearsBefore(jobs: seq<Job>, u: string, v: string) {
    exists i :: 0 <= i < |jobs| && jobs[i].url == u && forall k :: 0 <= k <= i ==> jobs[k].url != v
  }

  /** `j` is a job of `jobs` that no later job shares its url with. */
  ghost predicate IsLastOfUrl(jobs: seq<Job>, j: Job) {
    exists i :: 0 <= i < |jobs| && jobs[i] == j && forall k :: i < k < |jobs| ==> jobs[k].url != j.url
  }

  /** The reference order lists each non-empty url of the input once, and no other. */
  lemma {:induction false} FirstOrderMembers(jobs: seq<Job>)
    ensures Distinct(FirstOrder(jobs))
    ensures forall u :: u in FirstOrder(jobs) <==> u != "" && u in UrlsOf(jobs)
    decreases |jobs|
  {
    if |jobs| > 0 {
      var init := jobs[..|jobs| - 1];
      FirstOrderMembers(init);
      assert UrlsOf(jobs) == UrlsOf(init) + [jobs[|jobs| - 1].url];
    }
  }

  /** An appended job does not disturb an order already settled. */
  lemma AppearsBeforeExtend(init: seq<Job>, j: Job, u: string, v: string)
    requires AppearsBefore(init, u, v)
    ensures AppearsBefore(init + [j], u, v)
  {
    var i :| 0 <= i < |init| && init[i].url == u && forall k :: 0 <= k <= i ==> init[k].url != v;
    assert forall k :: 0 <= k <= i ==> (init + [j])[k] == init[k];
  }

  /** A url already present appears before the url of an appended job that is new. */
  lemma AppearsBeforeNew(init: seq<Job>, j: Job, u: string)
    requires u in UrlsOf(init) && j.url !in UrlsOf(init)
    ensures AppearsBefore(init + [j], u, j.url)
  {
    var i :| 0 <= i < |init| && UrlsOf(init)[i] == u;
    forall k | 0 <= k <= i ensures (init + [j])[k].url != j.url {
      assert (init + [j])[k] == init[k] && UrlsOf(init)[k] == init[k].url;
    }
    assert (init + [j])[i].url == u;
  }

  /** The reference order follows first appearances. */
  lemma {:induction false} FirstOrderOrdered(jobs: seq<Job>)
    ensures forall a, b :: 0 <= a < b < |FirstOrder(jobs)| ==> AppearsBefore(jobs, FirstOrder(jobs)[a], FirstOrder(jobs)[b])
    decreases |jobs|
  {
    if |jobs| > 0 {
      var init, last := jobs[..|jobs| - 1], jobs[|jobs| - 1];
      assert jobs == init + [last];
      FirstOrderOrdered(init);
      FirstOrderMembers(init);
      var fo, fi := FirstOrder(jobs), FirstOrder(init);
      forall a, b | 0 <= a < b < |fo|
        ensures AppearsBefore(jobs, fo[a], fo[b])
      {
        assert fo[a] == fi[a] && fo[a] in fi;
        if b < |fi| {
          AppearsBeforeExtend(init, last, fi[a], fi[b]);
        } else {
          AppearsBeforeNew(init, last, fo[a]);
        }
      }
    }
  }

  /** The urls the dedup keeps are the reference order. */
  lemma {:induction false} DedupUrls(jobs: seq<Job>)
    ensures UrlsOf(DedupJobs(jobs)) == FirstOrder(jobs)
    decreases |jobs|
  {
    if |jobs| > 0 {
      DedupUrls(jobs[..|jobs| - 1]);
    }
  }

  /** Appending a job of another url keeps a last job last. */
  lemma LastExtend(init: seq<Job>, x: Job, j: Job)
    requires IsLastOfUrl(init, x) && j.url != x.url
    ensures IsLastOfUrl(init + [j], x)
  {
    var i :| 0 <= i < |init| && init[i] == x && forall m :: i < m < |init| ==> init[m].url != x.url;
    assert (init + [j])[i] == x;
  }

  /** The appended job is the last of its url. */
  lemma LastAppended(init: seq<Job>, j: Job)
    ensures IsLastOfUrl(init + [j], j)
  {
    assert (init + [j])[|init|] == j;
  }

  /** Each job the dedup keeps is the last input job with its url. */
  lemma {:induction false} DedupLast(jobs: seq<Job>)
    ensures forall k :: 0 <= k < |DedupJobs(jobs)| ==> IsLastOfUrl(jobs, DedupJobs(jobs)[k])
    decreases |jobs|
  {
    if |jobs| > 0 {
      var n := |jobs| - 1;
      var init, j := jobs[..n], jobs[n];
      assert jobs == init + [j];
      DedupLast(init);
      DedupUrls(init);
      FirstOrderMembers(init);
      var rest := DedupJobs(init);
      var r := DedupJobs(jobs);
      assert r == if j.url == "" then rest else Store(rest, j);
      forall k | 0 <= k < |r|
        ensures IsLastOfUrl(jobs, r[k])
      {
        if j.url != "" && (k == |rest| || rest[k].url == j.url) {
          assert r[k] == j;
          LastAppended(init, j);
        } else {
          assert r[k] == rest[k];
          assert UrlsOf(rest)[k] in FirstOrder(init);
          LastExtend(init, rest[k], j);
        }
      }
    }
  }

  /**
   * The dedup keeps exactly one job per distinct non-empty url: the last
   * job carrying it; jobs with an empty url are gone; the order is that of
   * each url's first appearance.
   */
  lemma DedupKeepsLastPerUrl(jobs: seq<Job>)
    ensures Distinct(UrlsOf(DedupJobs(jobs)))
    ensures forall u :: u in UrlsOf(DedupJobs(jobs)) <==> u != "" && u in UrlsOf(jobs)
    ensures forall k :: 0 <= k < |DedupJobs(jobs)| ==> IsLastOfUrl(jobs, DedupJobs(jobs)[k])
    ensures forall a, b :: 0 <= a < b < |DedupJobs(jobs)| ==> AppearsBefore(jobs, DedupJobs(jobs)[a].url, DedupJobs(jobs)[b].url)
  {
    DedupUrls(jobs);
    DedupLast(jobs);
    FirstOrderMembers(jobs);
    FirstOrderOrdered(jobs);
    var r := DedupJobs(jobs);
    forall a, b | 0 <= a < b < |r|
      ensures AppearsBefore(jobs, r[a].url, r[b].url)
    {
      assert r[a].url == FirstOrder(jobs)[a] && r[b].url == FirstOrder(jobs)[b];
    }
  }

  /** Postings that already have distinct non-empty urls pass through unchanged. */
  lemma {:induction false} DedupOfDistinct(jobs: seq<Job>)
    requires Distinct(UrlsOf(jobs))
    requires forall i :: 0 <= i < |jobs| ==> jobs[i].url != ""
    ensures DedupJobs(jobs) == jobs
    decreases |jobs|
  {
    if |jobs| > 0 {
      var n := |jobs| - 1;
      var init := jobs[..n];
      DistinctInit(jobs);
      DedupOfDistinct(init);
      StoreNew(init, jobs[n]);
      assert init + [jobs[n]] == jobs;
    }
  }

  /** Dropping the last job keeps the urls distinct, and the last url is not among the rest. */
  lemma DistinctInit(jobs: seq<Job>)
    requires |jobs| > 0 && Distinct(UrlsOf(jobs))
    ensures Distinct(UrlsOf(jobs[..|jobs| - 1]))
    ensures jobs[|jobs| - 1].url !in UrlsOf(jobs[..|jobs| - 1])
  {
    var n := |jobs| - 1;
    var init := jobs[..n];
    assert forall i :: 0 <= i < n ==> UrlsOf(init)[i] == UrlsOf(jobs)[i];
    forall i | 0 <= i < n ensures UrlsOf(init)[i] != jobs[n].url {
      assert UrlsOf(jobs)[i] != UrlsOf(jobs)[n];
    }
  }

  /** Storing a job under a new url appends it. */
  lemma StoreNew(d: seq<Job>, j: Job)
    requires j.url !in UrlsOf(d)
    ensures Store(d, j) == d + [j]
  {
  }

  /** Running the dedup a second time changes nothing. */
  lemma DedupIdempotent(jobs: seq<Job>)
    ensures DedupJobs(DedupJobs(jobs)) == DedupJobs(jobs)
  {
    DedupKeepsLastPerUrl(jobs);
    var r := DedupJobs(jobs);
    forall i | 0 <= i < |r| ensures r[i].url != "" {
      assert UrlsOf(r)[i] in UrlsOf(r);
    }
    DedupOfDistinct(r);
  }

  // ------------------------------------------------------------ spiders

  /** The four registered spiders. */
  datatype Spider = LinkedinSpider | LaborumSpider | TrabajandoSpider | TrabajoConSentidoSpider {
    /** The registry key the spider is found under. */
    function Name(): string {
      match this
      case LinkedinSpider => "linkedin"
      case LaborumSpider => "laborum"
      case TrabajandoSpider => "trabajando"
      case TrabajoConSentidoSpider => "trabajoconsentido"
    }
  }

  /** The registry lookup: the spider registered under `name`, if any. */
  function Registry(name: string): Option<Spider> {
    if name == "linkedin" then Some(LinkedinSpider)
    else if name == "laborum" then Some(LaborumSpider)
    else if name == "trabajando" then Some(TrabajandoSpider)
    else if name == "trabajoconsentido" then Some(TrabajoConSentidoSpider)
    else None
  }

  /** The registry is a bijection between the four names and the four spiders. */
  lemma RegistryRoundTrip(name: string, s: Spider)
    ensures Registry(s.Name()) == Some(s)
    ensures Registry(name) == Some(s) <==> name == s.Name()
  {
  }

  /** The name one part asks for: none when it is blank, else its stripped, lower-cased text. */
  function PartName(p: string): seq<string> {
    var s := Strip(p);
    if s == "" then [] else [Lower(s)]
  }

  /** The names chosen from the comma-separated parts: each stripped and lower-cased, blank ones dropped. */
  function SelectNames(parts: seq<string>): (names: seq<string>)
    ensures |names| <= |parts|
  {
    if |parts| == 0 then [] else PartName(parts[0]) + SelectNames(parts[1..])
  }

  /** `n` is what some non-blank part of `parts` strips and lower-cases to. */
  predicate NameOfPart(parts: seq<string>, n: string) {
    exists i :: 0 <= i < |parts| && Strip(parts[i]) != "" && n == Lower(Strip(parts[i]))
  }

  /** A name is chosen exactly when some non-blank part strips and lower-cases to it. */
  lemma {:induction false} SelectNamesMember(parts: seq<string>, n: string)
    ensures n in SelectNames(parts) <==> NameOfPart(parts, n)
  {
    if |parts| > 0 {
      SelectNamesMember(parts[1..], n);
      assert forall i :: 1 <= i < |parts| ==> parts[i] == parts[1..][i - 1];
      if NameOfPart(parts, n) {
        var i :| 0 <= i < |parts| && Strip(parts[i]) != "" && n == Lower(Strip(parts[i]));
        if i > 0 {
          assert Strip(parts[1..][i - 1]) != "" && n == Lower(Strip(parts[1..][i - 1]));
        }
      }
    }
  }

  lemma SelectNamesMembers(parts: seq<string>)
    ensures forall n :: n in SelectNames(parts) <==> NameOfPart(parts, n)
  {
    forall n ensures n in SelectNames(parts) <==> NameOfPart(parts, n) {
      SelectNamesMember(parts, n);
    }
  }

  /** One part gives its stripped, lower-cased text, or nothing when it is blank. */
  lemma SelectNamesOne(p: string)
    ensures Strip(p) == "" ==> SelectNames([p]) == []
    ensures Strip(p) != "" ==> SelectNames([p]) == [Lower(Strip(p))]
  {
    assert [p][1..] == [];
  }

  /** The comprehension works part by part: the names of two runs of parts are the names of each, in order. */
  lemma {:induction false} SelectNamesAppend(a: seq<string>, b: seq<string>)
    ensures SelectNames(a + b) == SelectNames(a) + SelectNames(b)
    decreases |a|
  {
    if |a| == 0 {
      assert a + b == b;
    } else {
      assert (a + b)[0] == a[0];
      assert (a + b)[1..] == a[1..] + b;
      SelectNamesAppend(a[1..], b);
      assert SelectNames(a + b) == PartName(a[0]) + (SelectNames(a[1..]) + SelectNames(b));
    }
  }

  /** The spider names a `SPIDERS` setting asks for, in the order given. */
  function SpiderNames(env: string): (names: seq<string>)
    ensures forall i :: 0 <= i < |names| ==> names[i] != ""
    ensures forall n :: n in names <==> NameOfPart(SplitOn(env, ','), n)
  {
    SelectNamesNonEmpty(SplitOn(env, ','));
    SelectNamesMembers(SplitOn(env, ','));
    SelectNames(SplitOn(env, ','))
  }

  lemma {:induction false} SelectNamesNonEmpty(parts: seq<string>)
    ensures forall i :: 0 <= i < |SelectNames(parts)| ==> SelectNames(parts)[i] != ""
  {
    if |parts| > 0 {
      SelectNamesNonEmpty(parts[1..]);
    }
  }

  /** The setting used when `SPIDERS` is unset. */
  const DefaultSpiders: string := "linkedin,laborum,trabajando,trabajoconsentido"

  /** A name that stripping and lower-casing leave as it is, and that holds no comma. */
  predicate CanonicalName(n: string) {
    |n| > 0 && !IsSpace(n[0]) && !IsSpace(n[|n| - 1]) && ',' !in n
    && forall i :: 0 <= i < |n| ==> LowerChar(n[i]) == n[i]
  }

  lemma CanonicalNormal(n: string)
    requires CanonicalName(n)
    ensures Strip(n) == n && Lower(n) == n
  {
    assert StripLeft(n) == n;
    assert StripRight(n) == n;
  }

  /** Listing canonical names separated by commas asks for exactly those names. */
  lemma {:induction false} SpiderNamesOfJoin(names: seq<string>)
    requires |names| >= 1
    requires forall i :: 0 <= i < |names| ==> CanonicalName(names[i])
    ensures SpiderNames(Join(",", names)) == names
  {
    SplitOnJoin(names, ',');
    assert [','] == ",";
    SelectNamesCanonical(names);
  }

  lemma {:induction false} SelectNamesCanonical(names: seq<string>)
    requires forall i :: 0 <= i < |names| ==> CanonicalName(names[i])
    ensures SelectNames(names) == names
  {
    if |names| > 0 {
      CanonicalNormal(names[0]);
      SelectNamesCanonical(names[1..]);
    }
  }

  /** A non-empty name of lower-case ASCII letters is canonical. */
  lemma LettersCanonical(n: string)
    requires |n| > 0 && forall i :: 0 <= i < |n| ==> 'a' <= n[i] <= 'z'
    ensures CanonicalName(n)
  {
  }

  /** The default setting lists the four registry names, comma-separated. */
  lemma DefaultIsJoin()
    ensures DefaultSpiders == Join(",", ["linkedin", "laborum", "trabajando", "trabajoconsentido"])
  {
    JoinFour(",", "linkedin", "laborum", "trabajando", "trabajoconsentido");
  }

  /** Without a `SPIDERS` setting every registered spider runs once, in registry order. */
  lemma DefaultRunsAll()
    ensures SpiderNames(DefaultSpiders) == [LinkedinSpider.Name(), LaborumSpider.Name(), TrabajandoSpider.Name(), TrabajoConSentidoSpider.Name()]
  {
    var names := ["linkedin", "laborum", "trabajando", "trabajoconsentido"];
    DefaultIsJoin();
    LettersCanonical(names[0]);
    LettersCanonical(names[1]);
    LettersCanonical(names[2]);
    LettersCanonical(names[3]);
    SpiderNamesOfJoin(names);
  }

  // ------------------------------------------------------------ collecting

  /** What running one spider gives: its postings, or the exception it raised. */
  type RunSpider = Spider -> Result<seq<Job>, Exc>

  /** The postings one requested name contributes: none when unregistered or when its spider raises. */
  function Contribution(name: string, run: RunSpider): seq<Job> {
    match Registry(name)
    case None => []
    case Some(s) => run(s).GetOr([])
  }

  /** The collect loop: every requested name in order, each spider's failure contained. */
  function GatherJobs(names: seq<string>, run: RunSpider): (jobs: seq<Job>)
    decreases |names|
  {
    if |names| == 0 then [] else Contribution(names[0], run) + GatherJobs(names[1..], run)
  }

  /** The `i`-th requested name is registered, its spider returned normally, and `j` is among its postings. */
  predicate ReturnedBy(names: seq<string>, run: RunSpider, i: int, j: Job) {
    0 <= i < |names| && Registry(names[i]).Some? && run(Registry(names[i]).value).Ok?
    && j in run(Registry(names[i]).value).value
  }

  /**
   * A posting is collected exactly when some requested name is registered,
   * its spider returns normally, and the posting is among those it returned.
   */
  lemma {:induction false} GatherMembers(names: seq<string>, run: RunSpider, j: Job)
    ensures j in GatherJobs(names, run) <==> exists i :: ReturnedBy(names, run, i, j)
    decreases |names|
  {
    if |names| > 0 {
      GatherMembers(names[1..], run, j);
      if j in Contribution(names[0], run) {
        assert ReturnedBy(names, run, 0, j);
      }
      if j in GatherJobs(names[1..], run) {
        var i :| ReturnedBy(names[1..], run, i, j);
        assert ReturnedBy(names, run, i + 1, j);
      }
      if exists i :: ReturnedBy(names, run, i, j) {
        var i :| ReturnedBy(names, run, i, j);
        if i == 0 {
          assert Contribution(names[0], run) == run(Registry(names[0]).value).value;
        } else {
          assert ReturnedBy(names[1..], run, i - 1, j);
        }
      }
    }
  }

  /** The collected postings of two lists of names are those of each, one after the other. */
  lemma {:induction false} GatherAppend(a: seq<string>, b: seq<string>, run: RunSpider)
    ensures GatherJobs(a + b, run) == GatherJobs(a, run) + GatherJobs(b, run)
    decreases |a|
  {
    if |a| > 0 {
      assert (a + b)[0] == a[0] && (a + b)[1..] == a[1..] + b;
      GatherAppend(a[1..], b, run);
    } else {
      assert a + b == b;
    }
  }

  /** A spider that raises collects exactly what a spider returning nothing would: the others are unaffected. */
  lemma {:induction false} RaisingSpiderIsolated(names: seq<string>, run: RunSpider, s: Spider)
    requires run(s).Err?
    ensures GatherJobs(names, run) == GatherJobs(names, (t: Spider) => if t == s then Ok([]) else run(t))
    decreases |names|
  {
    if |names| > 0 {
      RaisingSpiderIsolated(names[1..], run, s);
    }
  }

  /** Unregistered names change nothing: dropping them collects the same postings. */
  lemma {:induction false} UnregisteredSkipped(a: seq<string>, name: string, b: seq<string>, run: RunSpider)
    requires Registry(name).None?
    ensures GatherJobs(a + [name] + b, run) == GatherJobs(a + b, run)
  {
    GatherAppend(a + [name], b, run);
    GatherAppend(a, [name], run);
    GatherAppend(a, b, run);
  }

  // ------------------------------------------------------------ the export

  /** The `DEDUP` setting switches dedup on for "1", "true" or "yes" in any case; unset means on. */
  predicate DedupEnabled(env: Option<string>) {
    Lower(env.GetOr("1")) in {"1", "true", "yes"}
  }

  /** The postings that reach the CSV writer: all collected ones, deduplicated when enabled. */
  function ExportedJobs(spidersEnv: Option<string>, dedupEnv: Option<string>, run: RunSpider): seq<Job> {
    var all := GatherJobs(SpiderNames(spidersEnv.GetOr(DefaultSpiders)), run);
    if DedupEnabled(dedupEnv) then DedupJobs(all) else all
  }

  /** One row per posting, in order. */
  function Rows(jobs: seq<Job>): (rows: seq<seq<(string, string)>>)
    ensures |rows| == |jobs|
    ensures forall i :: 0 <= i < |rows| ==> |rows[i]| == |CsvFields|
    ensures forall i, k :: 0 <= i < |rows| && 0 <= k < |rows[i]| ==> rows[i][k].0 == CsvFields[k]
  {
    seq(|jobs|, i requires 0 <= i < |jobs| => JobToRow(jobs[i]))
  }

  /** The url cells of the rows are the urls of the postings. */
  lemma UrlCells(jobs: seq<Job>)
    ensures forall i :: 0 <= i < |jobs| ==> Rows(jobs)[i][11].1 == UrlsOf(jobs)[i]
  {
    forall i | 0 <= i < |jobs| ensures Rows(jobs)[i][11].1 == UrlsOf(jobs)[i] {
      RowUrl(jobs[i]);
    }
  }

  /** The rows handed to the CSV writer. */
  function ExportRows(spidersEnv: Option<string>, dedupEnv: Option<string>, run: RunSpider): (rows: seq<seq<(string, string)>>)
    ensures forall i :: 0 <= i < |rows| ==> |rows[i]| == |CsvFields| && forall k :: 0 <= k < |CsvFields| ==> rows[i][k].0 == CsvFields[k]
  {
    Rows(ExportedJobs(spidersEnv, dedupEnv, run))
  }

  /** With dedup on, the url column of the export has no empty and no repeated cell. */
  lemma ExportUrlsUnique(spidersEnv: Option<string>, dedupEnv: Option<string>, run: RunSpider)
    requires DedupEnabled(dedupEnv)
    ensures forall i :: 0 <= i < |ExportRows(spidersEnv, dedupEnv, run)| ==> ExportRows(spidersEnv, dedupEnv, run)[i][11].1 != ""
    ensures forall i, k :: 0 <= i < k < |ExportRows(spidersEnv, dedupEnv, run)| ==>
      ExportRows(spidersEnv, dedupEnv, run)[i][11].1 != ExportRows(spidersEnv, dedupEnv, run)[k][11].1
  {
    var all := GatherJobs(SpiderNames(spidersEnv.GetOr(DefaultSpiders)), run);
    var jobs := DedupJobs(all);
    assert ExportRows(spidersEnv, dedupEnv, run) == Rows(jobs);
    DedupKeepsLastPerUrl(all);
    UniqueUrlCells(jobs);
  }

  /** Postings with distinct non-empty urls give rows with distinct non-empty url cells. */
  lemma UniqueUrlCells(jobs: seq<Job>)
    requires Distinct(UrlsOf(jobs)) && forall u :: u in UrlsOf(jobs) ==> u != ""
    ensures forall i :: 0 <= i < |Rows(jobs)| ==> Rows(jobs)[i][11].1 != ""
    ensures forall i, k :: 0 <= i < k < |Rows(jobs)| ==> Rows(jobs)[i][11].1 != Rows(jobs)[k][11].1
  {
    UrlCells(jobs);
    forall i | 0 <= i < |jobs| ensures UrlsOf(jobs)[i] != "" {
      assert UrlsOf(jobs)[i] in UrlsOf(jobs);
    }
  }

  /** With dedup off, the export has one row per collected posting, in collection order. */
  lemma ExportWithoutDedup(spidersEnv: Option<string>, dedupEnv: Option<string>, run: RunSpider)
    requires !DedupEnabled(dedupEnv)
    ensures var all := GatherJobs(SpiderNames(spidersEnv.GetOr(DefaultSpiders)), run);
      |ExportRows(spidersEnv, dedupEnv, run)| == |all|
      && forall i :: 0 <= i < |all| ==> ExportRows(spidersEnv, dedupEnv, run)[i] == JobToRow(all[i])
  {
    var all := GatherJobs(SpiderNames(spidersEnv.GetOr(DefaultSpiders)), run);
    assert ExportRows(spidersEnv, dedupEnv, run) == Rows(all);
  }
}
