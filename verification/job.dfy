/**
 * The job posting record every spider produces, and the per-source
 * setters that copy a payload into it: Laborum's and Trabajando's JSON
 * offers, Trabajo con Sentido's JSON offer and LinkedIn's detail page.
 * Each setter finishes by deciding whether the posting is an internship
 * from the words of its title.
 */
module JobModel {

  import opened Wrappers
  import opened Text
  import opened Py
  import opened Calendar
  import opened Enums

  /**
   * One posting. The text fields a setter copies out of a payload hold
   * whatever Python value the payload carried there (a string, None, or
   * anything else); `isPractice` is None while the attribute does not exist,
   * which is the case until the internship check has seen a non-empty title.
   */
  datatype Job = Job(
    title: Json,
    company: Json,
    url: string,
    publishedAt: nat,
    position: Position,
    website: Website,
    modality: Option<Modality>,
    location: Json,
    description: Json,
    salary: Option<string>,
    employmentType: Option<JobType>,
    remote: Option<bool>,
    isPractice: Option<bool>)

  /** A posting as the constructor leaves it: every optional field unset. */
  function NewJob(title: Json, company: Json, url: string, publishedAt: nat, position: Position, website: Website): Job {
    Job(title, company, url, publishedAt, position, website, None, JNull, JNull, None, None, None, None)
  }

  /** The fields no setter writes: they keep what the spider gave the constructor. */
  predicate SameIdentity(a: Job, b: Job) {
    a.url == b.url && a.position == b.position && a.website == b.website
    && a.salary == b.salary && a.remote == b.remote
  }

  // ------------------------------------------------------------ internship check

  /** The title words that mark an internship, after normalisation. */
  const PracticeWords: set<string> := {"practica", "practicas", "practicante"}

  /** Lower case, then the five accented vowels replaced by plain ones. */
  function NormalizeTitle(s: string): string {
    FoldAccents(Lower(s))
  }

  /** Some whitespace-separated token of the normalised title is a practice word. */
  predicate IsPracticeTitle(s: string) {
    exists w | w in Words(NormalizeTitle(s)) :: w in PracticeWords
  }

  /**
   * Reference reading of the same rule, without tokenising: some maximal
   * run of non-space characters of the normalised title spells a practice word.
   */
  ghost predicate HasPracticeWord(s: string) {
    var t := NormalizeTitle(s);
    exists i, j :: IsWordAt(t, i, j) && t[i..j] in PracticeWords
  }

  lemma PracticeTitleIffWord(s: string)
    ensures IsPracticeTitle(s) <==> HasPracticeWord(s)
  {
    var t := NormalizeTitle(s);
    if IsPracticeTitle(s) {
      var w :| w in Words(t) && w in PracticeWords;
      WordsAreRuns(t, w);
      var i, j :| IsWordAt(t, i, j) && t[i..j] == w;
    }
    if HasPracticeWord(s) {
      var i, j :| IsWordAt(t, i, j) && t[i..j] in PracticeWords;
      RunsAreWords(t, i, j);
    }
  }

  /** A title the internship check accepts without raising: empty-ish, or a string. */
  predicate TitleAccepted(v: Json) {
    !Truthy(v) || v.JStr?
  }

  /**
   * `after` is what the internship check leaves: a non-empty string title
   * decides the flag, any other title leaves the flag as it was `before`.
   */
  ghost predicate PracticeDecided(before: Option<bool>, after: Job) {
    if after.title.JStr? && after.title.s != "" then after.isPractice == Some(HasPracticeWord(after.title.s))
    else after.isPractice == before
  }

  /** The internship check: only the `isPractice` flag may change. */
  function SetPractice(job: Job): (r: Result<Job, Exc>)
    ensures r.Ok? <==> TitleAccepted(job.title)
    ensures r.Err? ==> r.error == AttributeError
    ensures r.Ok? ==> r.value == job.(isPractice := r.value.isPractice) && PracticeDecided(job.isPractice, r.value)
  {
    if !Truthy(job.title) then Ok(job)
    else match job.title
      case JStr(s) =>
        PracticeTitleIffWord(s);
        Ok(job.(isPractice := Some(IsPracticeTitle(s))))
      case _ => Err(AttributeError)
  }

  /** Accent-free capitals: the characters upper case makes of the folded vowels. */
  function StripAccentChar(c: char): char {
    match c
    case 'á' => 'a'
    case 'é' => 'e'
    case 'í' => 'i'
    case 'ó' => 'o'
    case 'ú' => 'u'
    case 'Á' => 'A'
    case 'É' => 'E'
    case 'Í' => 'I'
    case 'Ó' => 'O'
    case 'Ú' => 'U'
    case _ => c
  }

  /** The title with its accented vowels (either case) written without the accent. */
  function StripAccents(s: string): (r: string)
    ensures |r| == |s| && forall i :: 0 <= i < |s| ==> r[i] == StripAccentChar(s[i])
  {
    seq(|s|, i requires 0 <= i < |s| => StripAccentChar(s[i]))
  }

  /** The check does not depend on letter case. */
  lemma PracticeIgnoresCase(s: string)
    ensures IsPracticeTitle(Upper(s)) == IsPracticeTitle(s)
    ensures IsPracticeTitle(Lower(s)) == IsPracticeTitle(s)
  {
    assert NormalizeTitle(Upper(s)) == NormalizeTitle(s);
    assert NormalizeTitle(Lower(s)) == NormalizeTitle(s);
  }

  /** The check does not depend on the accents over a, e, i, o, u, in either case. */
  lemma PracticeIgnoresAccents(s: string)
    ensures IsPracticeTitle(StripAccents(s)) == IsPracticeTitle(s)
  {
    assert NormalizeTitle(StripAccents(s)) == NormalizeTitle(s);
  }

  /** A title the check accepts. */
  lemma PracticeExample()
    ensures IsPracticeTitle("Practicante DevOps")
  {
    ExampleNormalized();
    var w, rest := "practicante", " devops";
    assert forall k :: 0 <= k < |w| ==> !IsSpace(w[k]);
    assert rest[1..] == "devops" && IsSpace(rest[0]);
    WordsOfRun("devops");
    WordsOfRunThen(w, rest);
    assert "practicante" in PracticeWords;
  }

  lemma ExampleNormalized()
    ensures NormalizeTitle("Practicante DevOps") == "practicante" + " devops"
  {
  }

  /** Upper case and an accent make no difference. */
  lemma AccentedPracticeExample()
    ensures IsPracticeTitle("PRÁCTICA")
  {
    assert NormalizeTitle("PRÁCTICA") == "practica";
    WordsOfRun("practica");
  }

  /** A practice word with punctuation attached is a different token; an empty title has none. */
  lemma NonPracticeExamples()
    ensures !IsPracticeTitle("practica,")
    ensures !IsPracticeTitle("")
  {
    PunctuatedWord();
    EmptyTitle();
  }

  lemma PunctuatedWord()
    ensures !IsPracticeTitle("practica,")
  {
    var w := "practica,";
    assert |w| == 9 && w[8] == ',';
    assert w !in PracticeWords by {
      assert w != "practicas" by { assert "practicas"[8] == 's'; }
    }
    PlainTitle(w);
    SingleWordTitle(w);
  }

  lemma EmptyTitle()
    ensures !IsPracticeTitle("")
  {
    assert Words(NormalizeTitle("")) == [];
  }

  /** Lower-case ASCII letters and punctuation are left alone by the normalisation. */
  lemma PlainTitle(s: string)
    requires forall k :: 0 <= k < |s| ==> 'a' <= s[k] <= 'z' || s[k] == ','
    ensures NormalizeTitle(s) == s
    ensures forall k :: 0 <= k < |s| ==> !IsSpace(s[k])
  {
    assert Lower(s) == s;
  }

  /** A title that is one normalised token is an internship title exactly when the token is a practice word. */
  lemma SingleWordTitle(w: string)
    requires |w| > 0 && forall k :: 0 <= k < |w| ==> !IsSpace(w[k])
    requires NormalizeTitle(w) == w
    ensures IsPracticeTitle(w) <==> w in PracticeWords
  {
    WordsOfRun(w);
  }

  // ------------------------------------------------------------ payload dates

  /** Laborum's `dd-mm-yyyy`: split on `-` into exactly three parts, reordered, then parsed. */
  function LaborumDate(raw: Json): (r: Result<Date, Exc>)
    ensures r.Ok? ==> ValidDate(r.value)
    ensures !raw.JStr? ==> r == Err(AttributeError)
    ensures raw.JStr? && |SplitOn(raw.s, '-')| != 3 ==> r == Err(ValueError)
  {
    match raw
    case JStr(s) =>
      var parts := SplitOn(s, '-');
      if |parts| != 3 then Err(ValueError)
      else ParseYmd(parts[2] + "-" + parts[1] + "-" + parts[0])
    case _ => Err(AttributeError)
  }

  /** Every date written `dd-mm-yyyy` reads back as itself. */
  lemma LaborumDateReadsDayMonthYear(d: Date)
    requires ValidDate(d)
    ensures LaborumDate(JStr(Digits2(d.day) + "-" + Digits2(d.month) + "-" + Digits4(d.year))) == Ok(d)
  {
    var dd, mm, yy := Digits2(d.day), Digits2(d.month), Digits4(d.year);
    DigitsHaveNoDash(dd);
    DigitsHaveNoDash(mm);
    DigitsHaveNoDash(yy);
    SplitThree(dd, mm, yy);
    ParseFormatYmd(d);
  }

  lemma DigitsHaveNoDash(s: string)
    requires AllDigits(s)
    ensures '-' !in s && 'T' !in s
  {
  }

  /** The default Laborum date. */
  lemma LaborumDefaultDate()
    ensures LaborumDate(JStr("01-01-2000")) == Ok(Date(2000, 1, 1))
  {
    var d := Date(2000, 1, 1);
    LaborumDateReadsDayMonthYear(d);
    DefaultDateText();
  }

  lemma DefaultDateText()
    ensures Digits2(1) + "-" + Digits2(1) + "-" + Digits4(2000) == "01-01-2000"
  {
    var one, year := Digits2(1), Digits4(2000);
    assert one == "01";
    assert Digits2(20) == "20" && Digits2(0) == "00";
    assert year == "2000";
  }

  /** Three dash-free parts joined by dashes split back into those parts. */
  lemma SplitThree(a: string, b: string, c: string)
    requires '-' !in a && '-' !in b && '-' !in c
    ensures SplitOn(a + "-" + b + "-" + c, '-') == [a, b, c]
  {
    var bc := b + ['-'] + c;
    SplitTwo(b, c);
    SplitOnPiece(a, '-', bc);
    Reassociate(a, b, c);
  }

  lemma SplitTwo(b: string, c: string)
    requires '-' !in b && '-' !in c
    ensures SplitOn(b + ['-'] + c, '-') == [b, c]
  {
    SplitOnWhole(c, '-');
    SplitOnPiece(b, '-', c);
  }

  lemma Reassociate(a: string, b: string, c: string)
    ensures a + "-" + b + "-" + c == a + ['-'] + (b + ['-'] + c)
  {
  }

  /** A year-first date `yyyy-mm-dd` is split, reordered to `dd-mm-yyyy` and rejected. */
  lemma LaborumDateRejectsYearFirst(yy: string, mm: string, dd: string)
    requires AllDigits(yy) && AllDigits(mm) && AllDigits(dd) && |dd| == 2
    ensures LaborumDate(JStr(yy + "-" + mm + "-" + dd)) == Err(ValueError)
  {
    DigitsHaveNoDash(yy);
    DigitsHaveNoDash(mm);
    DigitsHaveNoDash(dd);
    SplitThree(yy, mm, dd);
    var swapped := dd + "-" + mm + "-" + yy;
    assert swapped[2] == '-';
    NoLeadingYear(swapped);
  }

  /** An ISO date is read in the wrong order and rejected. */
  lemma LaborumDateRejectsIso()
    ensures LaborumDate(JStr("2021-03-05")) == Err(ValueError)
  {
    LaborumDateRejectsYearFirst("2021", "03", "05");
    assert "2021" + "-" + "03" + "-" + "05" == "2021-03-05";
  }

  /** A text with a dash in third place has no four-digit year in front, so `strptime` rejects it. */
  lemma NoLeadingYear(s: string)
    requires |s| >= 3 && s[2] == '-'
    ensures ParseYmd(s) == Err(ValueError)
  {
    if |s| >= 5 {
      assert s[..4][2] == '-';
    }
  }

  /** Without dashes there are not three parts; None has no `split`. */
  lemma LaborumDateRejectsShape(s: string)
    requires '-' !in s
    ensures LaborumDate(JStr(s)) == Err(ValueError)
    ensures LaborumDate(JNull) == Err(AttributeError)
  {
    SplitOnWhole(s, '-');
  }

  /** Trabajando's `fechaPublicacionFormatoIngles`: a string handed to `strptime` as it is. */
  function TrabajandoDate(raw: Json): (r: Result<Date, Exc>)
    ensures r.Ok? ==> ValidDate(r.value)
    ensures !raw.JStr? ==> r == Err(TypeError)
    ensures r.Err? && raw.JStr? ==> r.error == ValueError
  {
    match raw
    case JStr(s) => ParseYmd(s)
    case _ => Err(TypeError)
  }

  /** Trabajo con Sentido's `moderatedAt`: the text before the first `T`, parsed. */
  function TcsDate(raw: Json): (r: Result<Date, Exc>)
    ensures r.Ok? ==> ValidDate(r.value)
    ensures !raw.JStr? ==> r == Err(AttributeError)
  {
    match raw
    case JStr(s) => ParseYmd(SplitOn(s, 'T')[0])
    case _ => Err(AttributeError)
  }

  /** Whatever time of day follows the date, only the date is read. */
  lemma TcsDateReadsDatePart(d: Date, rest: string)
    requires ValidDate(d)
    ensures TcsDate(JStr(FormatYmd(d) + "T" + rest)) == Ok(d)
  {
    var ymd := FormatYmd(d);
    DigitsHaveNoDash(Digits4(d.year));
    DigitsHaveNoDash(Digits2(d.month));
    DigitsHaveNoDash(Digits2(d.day));
    SplitOnPiece(ymd, 'T', rest);
    ParseFormatYmd(d);
  }

  /** A missing `moderatedAt` defaults to the empty string, which `strptime` rejects. */
  lemma TcsMissingDateFails()
    ensures TcsDate(JStr("")) == Err(ValueError)
  {
    SplitOnWhole("", 'T');
  }

  // ------------------------------------------------------------ per-source setters

  /** Laborum's `modalidadTrabajo`: the three spellings it recognises. */
  function LaborumModality(v: Json): Option<Modality> {
    if v == JStr("Presencial") then Some(Presencial)
    else if v == JStr("Híbrido") then Some(Hibrido)
    else if v == JStr("Remoto") then Some(Remoto)
    else None
  }

  /** Copy a Laborum offer into the posting, then run the internship check. */
  function SetLaborumData(job: Job, data: Json): (r: Result<Job, Exc>)
    ensures !data.JObj? ==> r == Err(AttributeError)
    ensures data.JObj? ==>
      var date := LaborumDate(DictGet(data, "fechaPublicacion", JStr("01-01-2000")));
      var title := DictGet(data, "titulo", JNull);
      && (r.Ok? <==> date.Ok? && TitleAccepted(title))
      && (date.Err? ==> r == Err(date.error))
      && (date.Ok? && !TitleAccepted(title) ==> r == Err(AttributeError))
      && (r.Ok? ==>
          && r.value.title == title
          && r.value.company == DictGet(data, "empresa", JNull)
          && r.value.location == DictGet(data, "localizacion", JNull)
          && r.value.description == DictGet(data, "detalle", JNull)
          && r.value.publishedAt == Midnight(date.value)
          && r.value.employmentType == Some(if DictGet(data, "tipoTrabajo", JNull) == JStr("Full-time") then FullTime else PartTime)
          && r.value.modality == LaborumModality(DictGet(data, "modalidadTrabajo", JNull)).Or(job.modality)
          && SameIdentity(job, r.value)
          && PracticeDecided(job.isPractice, r.value))
  {
    match data
    case JObj(_) =>
      var date :- LaborumDate(DictGet(data, "fechaPublicacion", JStr("01-01-2000")));
      var kind := if DictGet(data, "tipoTrabajo", JNull) == JStr("Full-time") then FullTime else PartTime;
      SetPractice(job.(
        title := DictGet(data, "titulo", JNull),
        company := DictGet(data, "empresa", JNull),
        location := DictGet(data, "localizacion", JNull),
        description := DictGet(data, "detalle", JNull),
        publishedAt := Midnight(date),
        employmentType := Some(kind),
        modality := LaborumModality(DictGet(data, "modalidadTrabajo", JNull)).Or(job.modality)))
    case _ => Err(AttributeError)
  }

  /** Trabajando's `nombreJornada`: working pattern, with in-office as the fallback. */
  function TrabajandoModality(jornada: Json): Modality {
    if jornada == JStr("Mixta (Teletrabajo + Presencial)") then Hibrido
    else if jornada == JStr("Teletrabajo") then Remoto
    else Presencial
  }

  /** Copy a Trabajando offer into the posting, then run the internship check. */
  function SetTrabajandoData(job: Job, data: Json): (r: Result<Job, Exc>)
    ensures !data.JObj? ==> r == Err(AttributeError)
    ensures data.JObj? ==>
      var place := DictGet(data, "ubicacion", JObj([]));
      var date := TrabajandoDate(DictGet(data, "fechaPublicacionFormatoIngles", JStr("2000-01-01")));
      var title := DictGet(data, "nombreCargo", JNull);
      var jornada := DictGet(data, "nombreJornada", JStr(""));
      && (r.Ok? <==> place.JObj? && date.Ok? && TitleAccepted(title))
      && (!place.JObj? ==> r == Err(AttributeError))
      && (place.JObj? && date.Err? ==> r == Err(date.error))
      && (r.Ok? ==>
          && r.value.title == title
          && r.value.company == DictGet(data, "nombreEmpresaFantasia", JNull)
          && r.value.location == DictGet(place, "direccion", JNull)
          && r.value.description == JStr(Str(DictGet(data, "descripcionOferta", JNull)) + "\n" + Str(DictGet(data, "requisitosMinimos", JNull)))
          && r.value.publishedAt == Midnight(date.value)
          && r.value.employmentType == Some(if jornada == JStr("Part Time") then PartTime else FullTime)
          && r.value.modality == Some(TrabajandoModality(jornada))
          && SameIdentity(job, r.value)
          && PracticeDecided(job.isPractice, r.value))
  {
    match data
    case JObj(_) =>
      var location :- Get(DictGet(data, "ubicacion", JObj([])), "direccion", JNull);
      var description := Str(DictGet(data, "descripcionOferta", JNull)) + "\n" + Str(DictGet(data, "requisitosMinimos", JNull));
      var date :- TrabajandoDate(DictGet(data, "fechaPublicacionFormatoIngles", JStr("2000-01-01")));
      var jornada := DictGet(data, "nombreJornada", JStr(""));
      SetPractice(job.(
        title := DictGet(data, "nombreCargo", JNull),
        company := DictGet(data, "nombreEmpresaFantasia", JNull),
        location := location,
        description := JStr(description),
        publishedAt := Midnight(date),
        employmentType := Some(if jornada == JStr("Part Time") then PartTime else FullTime),
        modality := Some(TrabajandoModality(jornada))))
    case _ => Err(AttributeError)
  }

  /** Trabajo con Sentido's `workingMode`: the three spellings it recognises. */
  function TcsModality(v: Json): Option<Modality> {
    if v == JStr("Presencial") then Some(Presencial)
    else if v == JStr("Semi-presencial") then Some(Hibrido)
    else if v == JStr("Remoto") then Some(Remoto)
    else None
  }

  /** Copy a Trabajo con Sentido offer into the posting, then run the internship check. */
  function SetTcsData(job: Job, data: Json): (r: Result<Job, Exc>)
    ensures !data.JObj? ==> r == Err(AttributeError)
    ensures data.JObj? ==>
      var org := DictGet(data, "organization", JObj([]));
      var date := TcsDate(DictGet(data, "moderatedAt", JStr("")));
      var title := DictGet(data, "title", JNull);
      && (r.Ok? <==> org.JObj? && date.Ok? && TitleAccepted(title))
      && (!org.JObj? ==> r == Err(AttributeError))
      && (org.JObj? && date.Err? ==> r == Err(date.error))
      && (r.Ok? ==>
          && r.value.title == title
          && r.value.company == DictGet(org, "name", JNull)
          && r.value.location == DictGet(data, "city", JNull)
          && r.value.description == DictGet(data, "description", JNull)
          && r.value.publishedAt == Midnight(date.value)
          && r.value.employmentType == Some(if DictGet(data, "workingDay", JNull) == JStr("Completa") then FullTime else PartTime)
          && r.value.modality == TcsModality(DictGet(data, "workingMode", JNull)).Or(job.modality)
          && SameIdentity(job, r.value)
          && PracticeDecided(job.isPractice, r.value))
  {
    match data
    case JObj(_) =>
      var company :- Get(DictGet(data, "organization", JObj([])), "name", JNull);
      var date :- TcsDate(DictGet(data, "moderatedAt", JStr("")));
      SetPractice(job.(
        title := DictGet(data, "title", JNull),
        company := company,
        location := DictGet(data, "city", JNull),
        description := DictGet(data, "description", JNull),
        publishedAt := Midnight(date),
        employmentType := Some(if DictGet(data, "workingDay", JNull) == JStr("Completa") then FullTime else PartTime),
        modality := TcsModality(DictGet(data, "workingMode", JNull)).Or(job.modality)))
    case _ => Err(AttributeError)
  }

  /**
   * What the LinkedIn detail page offers once parsed: the raw text of the
   * title, company and location elements (when present), the stripped texts
   * of the job-criteria items in page order, and the inner markup of the
   * description (when present).
   */
  datatype DetailDoc = DetailDoc(
    titleText: Option<string>,
    companyText: Option<string>,
    locationText: Option<string>,
    criteria: seq<string>,
    descriptionMarkup: Option<string>)

  /** An element's text with surrounding whitespace removed, or None without the element. */
  function ElementText(t: Option<string>): Json {
    match t
    case Some(s) => JStr(Strip(s))
    case None => JNull
  }

  /** The second criteria item names the working pattern; two of its values mean part time. */
  function LinkedinJobType(criteria: seq<string>, current: Option<JobType>): Option<JobType> {
    if |criteria| > 1 then Some(if criteria[1] in {"Media jornada", "Voluntario"} then PartTime else FullTime)
    else current
  }

  /** Fill the posting from a LinkedIn detail page; string titles never make the check raise. */
  function SetLinkedinHtml(job: Job, doc: DetailDoc, date: nat, modality: Modality): (r: Job)
    ensures r.publishedAt == date && r.modality == Some(modality)
    ensures r.title == ElementText(doc.titleText) && r.company == ElementText(doc.companyText)
    ensures r.location == ElementText(doc.locationText)
    ensures r.description == (if doc.descriptionMarkup.Some? then JStr(doc.descriptionMarkup.value) else JNull)
    ensures |doc.criteria| <= 1 ==> r.employmentType == job.employmentType
    ensures |doc.criteria| > 1 ==> (r.employmentType == Some(PartTime) <==> doc.criteria[1] in {"Media jornada", "Voluntario"})
    ensures |doc.criteria| > 1 ==> r.employmentType in {Some(PartTime), Some(FullTime)}
    ensures SameIdentity(job, r) && PracticeDecided(job.isPractice, r)
  {
    var filled := job.(
      publishedAt := date,
      modality := Some(modality),
      title := ElementText(doc.titleText),
      company := ElementText(doc.companyText),
      location := ElementText(doc.locationText),
      employmentType := LinkedinJobType(doc.criteria, job.employmentType),
      description := if doc.descriptionMarkup.Some? then JStr(doc.descriptionMarkup.value) else JNull);
    match SetPractice(filled)
    case Ok(j) => j
    case Err(_) => filled
  }

  /** No setter ever classifies a posting as an internship or freelance by type. */
  lemma SettersUseOnlyFullOrPartTime(job: Job, data: Json, doc: DetailDoc, date: nat, m: Modality)
    requires job.employmentType == None
    ensures SetLaborumData(job, data).Ok? ==> SetLaborumData(job, data).value.employmentType in {Some(FullTime), Some(PartTime)}
    ensures SetTrabajandoData(job, data).Ok? ==> SetTrabajandoData(job, data).value.employmentType in {Some(FullTime), Some(PartTime)}
    ensures SetTcsData(job, data).Ok? ==> SetTcsData(job, data).value.employmentType in {Some(FullTime), Some(PartTime)}
    ensures SetLinkedinHtml(job, doc, date, m).employmentType in {None, Some(FullTime), Some(PartTime)}
  {
    LaborumType(job, data);
    TrabajandoType(job, data);
    TcsType(job, data);
  }

  /** Laborum stores full or part time. */
  lemma LaborumType(job: Job, data: Json)
    ensures SetLaborumData(job, data).Ok? ==> SetLaborumData(job, data).value.employmentType in {Some(FullTime), Some(PartTime)}
  {
  }

  /** Trabajando stores full or part time. */
  lemma TrabajandoType(job: Job, data: Json)
    ensures SetTrabajandoData(job, data).Ok? ==> SetTrabajandoData(job, data).value.employmentType in {Some(FullTime), Some(PartTime)}
  {
  }

  /** Trabajo con Sentido stores full or part time. */
  lemma TcsType(job: Job, data: Json)
    ensures SetTcsData(job, data).Ok? ==> SetTcsData(job, data).value.employmentType in {Some(FullTime), Some(PartTime)}
  {
  }

  /** Trabajando's "Part Time" pattern is part time at the office; an unknown pattern is full time at the office. */
  lemma TrabajandoPatterns(job: Job, data: Json)
    ensures SetTrabajandoData(job, data).Ok? && DictGet(data, "nombreJornada", JStr("")) == JStr("Part Time") ==>
      SetTrabajandoData(job, data).value.employmentType == Some(PartTime) && SetTrabajandoData(job, data).value.modality == Some(Presencial)
    ensures SetTrabajandoData(job, data).Ok? && DictGet(data, "nombreJornada", JStr("")) == JStr("") ==>
      SetTrabajandoData(job, data).value.employmentType == Some(FullTime) && SetTrabajandoData(job, data).value.modality == Some(Presencial)
  {
    if SetTrabajandoData(job, data).Ok? {
      var jornada := DictGet(data, "nombreJornada", JStr(""));
      var r := SetTrabajandoData(job, data).value;
      assert r.employmentType == Some(if jornada == JStr("Part Time") then PartTime else FullTime);
      assert r.modality == Some(TrabajandoModality(jornada));
      OfficePatterns(jornada);
    }
  }

  /** "Part Time" and the missing pattern both fall back to the office. */
  lemma OfficePatterns(jornada: Json)
    ensures jornada == JStr("Part Time") ==> TrabajandoModality(jornada) == Presencial
    ensures jornada == JStr("") ==> TrabajandoModality(jornada) == Presencial && jornada != JStr("Part Time")
  {
    assert "Part Time"[0] != "Mixta (Teletrabajo + Presencial)"[0] && "Part Time"[0] != "Teletrabajo"[0];
  }
}
