/**
 * The pure helpers of the LinkedIn spider: the search URLs of the logged-in
 * UI and of the guest endpoint, the relative publication dates written on
 * listing cards ("hace 3 horas", "2 days ago"), the remote/hybrid/on-site
 * cue scan, and the reading of one guest listing page into links.
 *
 * The listing page's HTML is given already taken apart into `Card`s, one per
 * `.base-card` / `.job-search-card` element, holding the pieces of that
 * element the spider looks at. Datetimes are whole seconds since
 * 0001-01-01T00:00:00, as in module `Calendar`; the current time is a parameter.
 */
module Linkedin {

  import opened Wrappers
  import opened Text
  import opened Py
  import opened Enums
  import opened Url
  import opened Pipeline

  const BaseUi: string := "https://www.linkedin.com/jobs/search/"
  const BaseGuest: string := "https://www.linkedin.com/jobs-guest/jobs/api/seeMoreJobPostings/search"

  /** The guest endpoint pages in steps of this many results. */
  const PageStride: nat := 25

  /** The spider's settings, as read from the configuration when it is built. */
  datatype Config = Config(
    headless: bool,
    keywords: string,     // already stripped; empty means "search by position"
    location: string,
    fTprSeconds: int,     // the "posted within" window of the search
    maxPages: int)

  /** The search words: the configured keywords, or the position's own value when there are none. */
  function Keywords(cfg: Config, position: Position): (k: string)
    ensures |k| > 0
  {
    if |cfg.keywords| > 0 then cfg.keywords else position.Value()
  }

  // ------------------------------------------------------------ search URLs

  /** The location filter of the UI search: a numeric location is a LinkedIn geo id. */
  function LocationParam(location: string): string {
    if IsDigitString(location) then "geoId=" + location else "location=" + location
  }

  /** The UI search URL for `keywords`; nothing in it is escaped. */
  function SearchUrlUi(cfg: Config, keywords: string): string {
    BaseUi + "?keywords=" + keywords + "&" + LocationParam(cfg.location) + "&f_TPR=r" + IntToString(cfg.fTprSeconds)
  }

  /** `str(i)` never writes an ampersand or a question mark. */
  lemma IntToStringPlain(i: int)
    ensures forall k :: 0 <= k < |IntToString(i)| ==> IntToString(i)[k] == '-' || IsDigit(IntToString(i)[k])
  {
    if i < 0 {
      var d := NatToString(-i);
      assert forall k :: 1 <= k < |"-" + d| ==> ("-" + d)[k] == d[k - 1];
    }
  }

  /**
   * When neither the keywords nor the location contain `&`, the UI query has
   * exactly three fields: the keywords, the location filter (a geo id exactly
   * when the location is all digits) and the time window.
   */
  lemma SearchUrlUiFields(cfg: Config, keywords: string)
    requires '&' !in keywords && '&' !in cfg.location
    ensures SplitOn(SearchUrlUi(cfg, keywords), '&')
      == [BaseUi + "?keywords=" + keywords, LocationParam(cfg.location), "f_TPR=r" + IntToString(cfg.fTprSeconds)]
    ensures LocationParam(cfg.location) == (if IsDigitString(cfg.location) then "geoId=" else "location=") + cfg.location
  {
    var a := BaseUi + "?keywords=" + keywords;
    var b := LocationParam(cfg.location);
    var c := "f_TPR=r" + IntToString(cfg.fTprSeconds);
    IntToStringPlain(cfg.fTprSeconds);
    NoAmpAppend(BaseUi + "?keywords=", keywords);
    LocationParamPlain(cfg.location);
    NoAmpAppend("f_TPR=r", IntToString(cfg.fTprSeconds));
    TimeParamSplit(a + "&" + b, IntToString(cfg.fTprSeconds));
    SplitThreeFields(a, b, c);
  }

  /** The location filter carries no ampersand the location does not. */
  lemma LocationParamPlain(location: string)
    requires '&' !in location
    ensures '&' !in LocationParam(location)
  {
    if IsDigitString(location) {
      NoAmpAppend("geoId=", location);
    } else {
      NoAmpAppend("location=", location);
    }
  }

  /** The literal `&f_TPR=r` is a separator followed by the window's key. */
  lemma TimeParamSplit(x: string, n: string)
    ensures x + "&f_TPR=r" + n == x + "&" + ("f_TPR=r" + n)
  {
    assert "&f_TPR=r" == "&" + "f_TPR=r";
  }

  /** Three ampersand-free fields joined by `&` split back into themselves. */
  lemma SplitThreeFields(a: string, b: string, c: string)
    requires '&' !in a && '&' !in b && '&' !in c
    ensures SplitOn(a + "&" + b + "&" + c, '&') == [a, b, c]
  {
    JoinThree("&", a, b, c);
    SplitOnJoin([a, b, c], '&');
  }

  /** Gluing two ampersand-free strings gives an ampersand-free string. */
  lemma NoAmpAppend(p: string, s: string)
    requires '&' !in p && '&' !in s
    ensures '&' !in p + s
  {
    assert forall k :: |p| <= k < |p + s| ==> (p + s)[k] == s[k - |p|];
  }

  /** The guest search's location: a numeric location is replaced by the country. */
  function GuestLocation(location: string): (l: string)
    ensures !IsDigitString(l)
  {
    assert !IsDigit("Chile"[0]);
    if IsDigitString(location) then "Chile" else location
  }

  /** The query parameters of guest page `page`, in the order the spider inserts them. */
  function GuestParams(cfg: Config, position: Position, page: nat): seq<(string, string)> {
    [ ("keywords", Keywords(cfg, position)),
      ("f_TPR", "r" + IntToString(cfg.fTprSeconds)),
      ("start", NatToString(page * PageStride)),
      ("location", GuestLocation(cfg.location)) ]
  }

  /** The guest endpoint URL of results page `page`. */
  function GuestUrl(cfg: Config, position: Position, page: nat): string {
    BaseGuest + "?" + UrlEncode(GuestParams(cfg, position, page))
  }

  predicate AllUnreserved(s: string) {
    forall k :: 0 <= k < |s| ==> IsUnreserved(s[k])
  }

  /** A field whose key and value need no escaping is written as they are. */
  lemma FieldPlain(key: string, value: string)
    requires AllUnreserved(key) && AllUnreserved(value)
    ensures Field((key, value)) == key + "=" + value
  {
  }

  /** The key names of the guest query need no escaping. */
  lemma GuestKeysPlain()
    ensures AllUnreserved("f_TPR") && AllUnreserved("start")
  {
    assert "f_TPR" == ['f', '_', 'T', 'P', 'R'];
    assert "start" == ['s', 't', 'a', 'r', 't'];
  }

  lemma LiteralPrefixes()
    ensures "f_TPR" + "=" + "r" == "f_TPR=r" && "start" + "=" == "start="
  {
  }

  /** The time-window value `r<seconds>` needs no escaping. */
  lemma WindowPlain(seconds: int)
    ensures AllUnreserved("r" + IntToString(seconds))
  {
    var w := "r" + IntToString(seconds);
    IntToStringPlain(seconds);
    assert forall k :: 1 <= k < |w| ==> w[k] == IntToString(seconds)[k - 1];
  }

  /** The time-window field is written as it is. */
  lemma WindowField(seconds: int)
    ensures Field(("f_TPR", "r" + IntToString(seconds))) == "f_TPR=r" + IntToString(seconds)
  {
    var x := IntToString(seconds);
    GuestKeysPlain();
    WindowPlain(seconds);
    FieldPlain("f_TPR", "r" + x);
    LiteralPrefixes();
    FieldValueSplit("f_TPR", "r", x);
  }

  /** A field whose value is a prefix and a rest is the field's head and then the rest. */
  lemma FieldValueSplit(key: string, p: string, x: string)
    ensures key + "=" + (p + x) == (key + "=" + p) + x
  {
  }

  /** The offset field is written as it is. */
  lemma StartField(offset: nat)
    ensures Field(("start", NatToString(offset))) == "start=" + NatToString(offset)
  {
    GuestKeysPlain();
    assert AllUnreserved(NatToString(offset));
    FieldPlain("start", NatToString(offset));
    LiteralPrefixes();
  }

  /**
   * The guest query has four fields: the escaped keywords, the time window,
   * the offset `page * 25` of the first result and the escaped location.
   */
  lemma GuestQueryFields(cfg: Config, position: Position, page: nat)
    ensures var fields := SplitOn(UrlEncode(GuestParams(cfg, position, page)), '&');
      && |fields| == 4
      && fields[0] == Field(("keywords", Keywords(cfg, position)))
      && fields[1] == "f_TPR=r" + IntToString(cfg.fTprSeconds)
      && fields[2] == "start=" + NatToString(page * PageStride)
      && fields[3] == Field(("location", GuestLocation(cfg.location)))
  {
    var params := GuestParams(cfg, position, page);
    UrlEncodeFields(params);
    var fields := SplitOn(UrlEncode(params), '&');
    assert |fields| == 4;
    assert fields[0] == Field(params[0]) && fields[1] == Field(params[1]);
    assert fields[2] == Field(params[2]) && fields[3] == Field(params[3]);
    WindowField(cfg.fTprSeconds);
    StartField(page * PageStride);
  }

  /** Different pages are requested at different URLs. */
  lemma GuestUrlsDistinct(cfg: Config, position: Position, p: nat, q: nat)
    requires p != q
    ensures GuestUrl(cfg, position, p) != GuestUrl(cfg, position, q)
  {
    if GuestUrl(cfg, position, p) == GuestUrl(cfg, position, q) {
      var n := |BaseGuest + "?"|;
      var x, y := UrlEncode(GuestParams(cfg, position, p)), UrlEncode(GuestParams(cfg, position, q));
      assert x == GuestUrl(cfg, position, p)[n..];
      assert y == GuestUrl(cfg, position, q)[n..];
      GuestQueryFields(cfg, position, p);
      GuestQueryFields(cfg, position, q);
      assert "start=" + NatToString(p * PageStride) == "start=" + NatToString(q * PageStride);
      assert NatToString(p * PageStride) == ("start=" + NatToString(p * PageStride))[6..];
      assert NatToString(q * PageStride) == ("start=" + NatToString(q * PageStride))[6..];
      NatValueOfNatToString(p * PageStride);
      NatValueOfNatToString(q * PageStride);
      assert false;
    }
  }

  // ------------------------------------------------------------ listing cards

  /** A card's `<time>` element: its `datetime` attribute, if any, and its text. */
  datatype TimeTag = TimeTag(datetime: Option<string>, text: string)

  /**
   * One result card of a guest listing page: the `href` of its full-card
   * link (no link, or a link without `href`, is `None`), its `<time>`
   * element, the stripped text of its list-date element, and its whole text
   * as `get_text(" ", strip=True)` renders it.
   */
  datatype Card = Card(href: Option<string>, time: Option<TimeTag>, listDate: Option<string>, text: string)

  /** The lower-cased date text of a card: the time tag's `datetime` or text, else the list-date text. */
  function DateText(card: Card): (t: string)
    ensures card.time.Some? && card.time.value.datetime.Some? && |Strip(card.time.value.datetime.value)| > 0
      ==> t == Lower(Strip(card.time.value.datetime.value))
    ensures (card.time.Some? && (card.time.value.datetime.None? || card.time.value.datetime == Some("")) &&
             |Strip(card.time.value.text)| > 0) ==> t == Lower(Strip(card.time.value.text))
    ensures card.time.None? ==> t == (if card.listDate.Some? then Lower(card.listDate.value) else "")
    ensures card.time.Some? &&
      (if card.time.value.datetime.Some? && |card.time.value.datetime.value| > 0
       then |Strip(card.time.value.datetime.value)| == 0
       else |Strip(card.time.value.text)| == 0)
      ==> t == (if card.listDate.Some? then Lower(card.listDate.value) else "")
  {
    var primary :=
      match card.time
      case None => ""
      case Some(tag) =>
        var raw := if tag.datetime.Some? && |tag.datetime.value| > 0 then tag.datetime.value else tag.text;
        Lower(Strip(raw));
    if |primary| > 0 then primary
    else match card.listDate
      case Some(d) => Lower(d)
      case None => ""
  }

  // ------------------------------------------------------------ relative dates

  const HourCues: seq<string> := ["hour", "hora"]
  const DayCues: seq<string> := ["day", "día", "dias", "días"]
  const WeekCues: seq<string> := ["week", "semana"]

  /** `any(w in txt for w in cues)`. */
  predicate HasCue(txt: string, cues: seq<string>) {
    exists k :: 0 <= k < |cues| && Contains(txt, cues[k])
  }

  /** `_first_int(txt) or 1`: the first number in the text, where none or zero count as one. */
  function UnitCount(txt: string): (n: nat)
    ensures n >= 1
    ensures FirstInt(txt).Some? && FirstInt(txt).value > 0 ==> n == FirstInt(txt).value
    ensures FirstInt(txt) == Some(0) || FirstInt(txt).None? ==> n == 1
  {
    match FirstInt(txt)
    case Some(v) => if v == 0 then 1 else v
    case None => 1
  }

  /** The largest number of days a `timedelta` holds. */
  const MaxDeltaDays: nat := 999999999

  const SecondsPerDay: nat := 86400

  /**
   * `now - timedelta(days=days, seconds=seconds)`, where an overflow of the
   * `timedelta` or a result before year 1 raises and the spider falls back
   * to `now`.
   */
  function Ago(now: nat, days: nat, seconds: nat): (r: nat)
    ensures r <= now
    ensures days <= MaxDeltaDays && days * SecondsPerDay + seconds <= now ==> r == now - (days * SecondsPerDay + seconds)
    ensures days > MaxDeltaDays || days * SecondsPerDay + seconds > now ==> r == now
  {
    if days > MaxDeltaDays || days * SecondsPerDay + seconds > now then now
    else now - (days * SecondsPerDay + seconds)
  }

  /**
   * The publication time a card's date text stands for: hour cues first,
   * then day cues, then week cues, each counting back `UnitCount` units from
   * `now`; with no cue, `now` itself.
   */
  function DateFromText(txt: string, now: nat): (r: nat)
    ensures r <= now
    ensures var n := UnitCount(txt);
      && (HasCue(txt, HourCues) ==>
            r == if n / 24 <= MaxDeltaDays && 3600 * n <= now then now - 3600 * n else now)
      && (!HasCue(txt, HourCues) && HasCue(txt, DayCues) ==>
            r == if n <= MaxDeltaDays && SecondsPerDay * n <= now then now - SecondsPerDay * n else now)
      && (!HasCue(txt, HourCues) && !HasCue(txt, DayCues) && HasCue(txt, WeekCues) ==>
            r == if 7 * n <= MaxDeltaDays && SecondsPerDay * (7 * n) <= now then now - SecondsPerDay * (7 * n) else now)
    ensures !HasCue(txt, HourCues) && !HasCue(txt, DayCues) && !HasCue(txt, WeekCues) ==> r == now
  {
    var n := UnitCount(txt);
    if HasCue(txt, HourCues) then HoursAsSeconds(n); Ago(now, n / 24, (n % 24) * 3600)
    else if HasCue(txt, DayCues) then Ago(now, n, 0)
    else if HasCue(txt, WeekCues) then Ago(now, 7 * n, 0)
    else now
  }

  /** The time a card says its offer was published. */
  function RelativeDate(card: Card, now: nat): (r: nat)
    ensures r <= now
  {
    DateFromText(DateText(card), now)
  }

  /** A word whose first letter the text lacks does not occur in it. */
  lemma MissingInitial(s: string, w: string)
    requires |w| > 0 && forall k :: 0 <= k < |s| ==> s[k] != w[0]
    ensures !Contains(s, w)
  {
    forall i | 0 <= i <= |s| - |w| ensures !OccursAt(s, w, i) {
      assert s[i..i + |w|][0] == s[i];
    }
  }

  /** A word occurs in a text that has it right after a prefix. */
  lemma OccursAfter(prefix: string, w: string, suffix: string)
    ensures Contains(prefix + w + suffix, w)
  {
    var s := prefix + w + suffix;
    assert s[|prefix|..|prefix| + |w|] == w;
    assert OccursAt(s, w, |prefix|);
  }

  /** `m` hours are `m / 24` whole days and `m % 24` leftover hours. */
  lemma HoursAsSeconds(m: nat)
    ensures (m / 24) * SecondsPerDay + (m % 24) * 3600 == 3600 * m
  {
    assert m == 24 * (m / 24) + m % 24;
  }

  /** Counting back `m` hours as whole days plus leftover hours is counting back `3600 * m` seconds. */
  lemma AgoHours(now: nat, m: nat)
    requires 3600 * m <= now && m / 24 <= MaxDeltaDays
    ensures Ago(now, m / 24, (m % 24) * 3600) == now - 3600 * m
  {
    HoursAsSeconds(m);
  }

  /** "N hours ago" reads as N. */
  lemma HoursNumber(n: nat)
    ensures FirstInt(NatToString(n) + " hours ago") == Some(n)
  {
    assert NatToString(n) + " hours ago" == "" + NatToString(n) + " hours ago";
    FirstIntReadsNumber("", n, " hours ago");
  }

  /** "N hours ago" has an hour cue. */
  lemma HoursCue(n: nat)
    ensures HasCue(NatToString(n) + " hours ago", HourCues)
  {
    var txt := NatToString(n) + " hours ago";
    assert txt == NatToString(n) + " " + "hour" + "s ago";
    OccursAfter(NatToString(n) + " ", "hour", "s ago");
    assert Contains(txt, HourCues[0]);
  }

  /** "N hours ago" counts back N hours, or one hour for N = 0. */
  lemma HoursAgo(n: nat, now: nat)
    requires 3600 * n <= now && 3600 <= now && n / 24 <= MaxDeltaDays
    ensures DateFromText(NatToString(n) + " hours ago", now) == now - 3600 * (if n == 0 then 1 else n)
  {
    HoursNumber(n);
    HoursCue(n);
    AgoHours(now, if n == 0 then 1 else n);
  }

  /** A text with only digits, spaces and the letters of "días" has no hour cue. */
  lemma NoHourCue(txt: string)
    requires forall k :: 0 <= k < |txt| ==> txt[k] != 'h'
    ensures !HasCue(txt, HourCues)
  {
    MissingInitial(txt, "hour");
    MissingInitial(txt, "hora");
  }

  /** "N días" reads as N. */
  lemma DaysNumber(n: nat)
    ensures FirstInt(NatToString(n) + " días") == Some(n)
  {
    assert NatToString(n) + " días" == "" + NatToString(n) + " días";
    FirstIntReadsNumber("", n, " días");
  }

  /** "N días" has a day cue and no hour cue. */
  lemma DaysCue(n: nat)
    ensures !HasCue(NatToString(n) + " días", HourCues)
    ensures HasCue(NatToString(n) + " días", DayCues)
  {
    var d := NatToString(n);
    var txt := d + " días";
    forall k | 0 <= k < |txt| ensures txt[k] != 'h' {
      if k < |d| { assert txt[k] == d[k] && IsDigit(d[k]); }
    }
    NoHourCue(txt);
    assert txt == d + " " + "días" + "";
    OccursAfter(d + " ", "días", "");
    assert Contains(txt, DayCues[3]);
  }

  /** "N días" counts back N days, or one day for N = 0. */
  lemma DaysAgo(n: nat, now: nat)
    requires SecondsPerDay * n <= now && SecondsPerDay <= now && n <= MaxDeltaDays
    ensures DateFromText(NatToString(n) + " días", now) == now - SecondsPerDay * (if n == 0 then 1 else n)
  {
    DaysNumber(n);
    DaysCue(n);
  }

  /** A date attribute written with digits and dashes carries no cue, so the card's time is `now`. */
  lemma DatetimeAttributeGivesNow(card: Card, now: nat)
    requires card.time.Some? && card.time.value.datetime.Some?
    requires |card.time.value.datetime.value| > 0
    requires forall k :: 0 <= k < |card.time.value.datetime.value| ==>
               IsDigit(card.time.value.datetime.value[k]) || card.time.value.datetime.value[k] == '-'
    ensures RelativeDate(card, now) == now
  {
    var d := card.time.value.datetime.value;
    assert DateText(card) == d by {
      DigitsDashPlain(d);
    }
    assert DateFromText(d, now) == now by {
      DigitsDashNoCue(d);
    }
  }

  /** Digits and dashes are neither whitespace nor capitals. */
  lemma DigitsDashPlain(d: string)
    requires |d| > 0 && forall k :: 0 <= k < |d| ==> IsDigit(d[k]) || d[k] == '-'
    ensures Strip(d) == d && Lower(d) == d
  {
    DigitOrDashPlain(d[0]);
    assert StripLeft(d) == d;
    DigitOrDashPlain(d[|d| - 1]);
    assert StripRight(d) == d;
    forall k | 0 <= k < |d| ensures Lower(d)[k] == d[k] {
      DigitOrDashPlain(d[k]);
    }
  }

  /** A digit or a dash is neither white space nor changed by lower-casing. */
  lemma DigitOrDashPlain(c: char)
    requires IsDigit(c) || c == '-'
    ensures !IsSpace(c) && LowerChar(c) == c
  {
  }

  /** A text of digits and dashes holds none of the hour, day or week cues. */
  lemma DigitsDashNoCue(t: string)
    requires forall k :: 0 <= k < |t| ==> IsDigit(t[k]) || t[k] == '-'
    ensures !HasCue(t, HourCues) && !HasCue(t, DayCues) && !HasCue(t, WeekCues)
  {
    MissingInitial(t, "hour");
    MissingInitial(t, "hora");
    MissingInitial(t, "day");
    MissingInitial(t, "día");
    MissingInitial(t, "dias");
    MissingInitial(t, "días");
    MissingInitial(t, "week");
    MissingInitial(t, "semana");
  }

  // ------------------------------------------------------------ modality cues

  /**
   * The modality a card or detail page suggests: a remote cue beats a hybrid
   * cue, and without either the job is on-site. Both the listing card and the
   * UI's detail page use this rule on their lower-cased text.
   */
  function ModalityHint(text: string): (m: Modality)
    ensures m == Remoto <==> Contains(Lower(text), "remoto") || Contains(Lower(text), "remote")
    ensures m == Hibrido <==> (!(Contains(Lower(text), "remoto") || Contains(Lower(text), "remote")) &&
                               (Contains(Lower(text), "híbrido") || Contains(Lower(text), "hibrido") || Contains(Lower(text), "hybrid")))
    ensures m == Presencial ==> !Contains(Lower(text), "hibrido") && !Contains(Lower(text), "hybrid")
  {
    var t := Lower(text);
    if Contains(t, "remoto") || Contains(t, "remote") then Remoto
    else if Contains(t, "híbrido") || Contains(t, "hibrido") || Contains(t, "hybrid") then Hibrido
    else Presencial
  }

  /** Lower-casing works character by character. */
  lemma LowerConcat(a: string, b: string)
    ensures Lower(a + b) == Lower(a) + Lower(b)
  {
    assert forall k :: 0 <= k < |a + b| ==> Lower(a + b)[k] == (Lower(a) + Lower(b))[k];
  }

  /** An occurrence stays an occurrence when text is added around it. */
  lemma ContainsWithin(p: string, s: string, q: string, w: string)
    requires Contains(s, w)
    ensures Contains(p + s + q, w)
  {
    var i :| 0 <= i <= |s| - |w| && OccursAt(s, w, i);
    var t := p + s + q;
    assert t[|p| + i..|p| + i + |w|] == s[i..i + |w|];
    assert OccursAt(t, w, |p| + i);
  }

  /** More text around a remote cue never demotes it, and a hybrid cue is never lost to on-site. */
  lemma ModalityHintInContext(p: string, s: string, q: string)
    ensures ModalityHint(s) == Remoto ==> ModalityHint(p + s + q) == Remoto
    ensures ModalityHint(s) == Hibrido ==> ModalityHint(p + s + q) != Presencial
  {
    LowerConcat(p + s, q);
    LowerConcat(p, s);
    var l := Lower(p + s + q);
    assert l == Lower(p) + Lower(s) + Lower(q);
    var t := Lower(s);
    forall w | Contains(t, w) ensures Contains(l, w) {
      ContainsWithin(Lower(p), t, Lower(q), w);
    }
  }

  // ------------------------------------------------------------ listing pages

  /** One job a guest listing page points to. */
  datatype Link = Link(url: string, date: nat, modality: Modality)

  /** `href.split("?")[0]`: the link without its query string. */
  function UrlBeforeQuery(href: string): (u: string)
    ensures '?' !in u
    ensures |u| <= |href| && u == href[..|u|]
    ensures |u| < |href| ==> href[|u|] == '?'
  {
    SplitOn(href, '?')[0]
  }

  /** `if not a or not a.get("href")`: cards without a usable link are skipped. */
  predicate HasHref(card: Card) {
    card.href.Some? && |card.href.value| > 0
  }

  /** The link a card with a usable `href` contributes. */
  function CardLink(card: Card, now: nat): (l: Link)
    requires HasHref(card)
    ensures l.date <= now && '?' !in l.url
    ensures l.url == UrlBeforeQuery(card.href.value)
    ensures |l.url| <= |card.href.value| && l.url == card.href.value[..|l.url|]
    ensures |l.url| < |card.href.value| ==> card.href.value[|l.url|] == '?'
    ensures l.date == RelativeDate(card, now) && l.modality == ModalityHint(card.text)
  {
    Link(UrlBeforeQuery(card.href.value), RelativeDate(card, now), ModalityHint(card.text))
  }

  /** The links one card contributes: its own, or none. */
  function CardLinks(card: Card, now: nat): (r: seq<Link>)
    ensures |r| <= 1
  {
    if HasHref(card) then [CardLink(card, now)] else []
  }

  /** The links of each card, in card order. */
  function LinksPerCard(cards: seq<Card>, now: nat): (r: seq<seq<Link>>)
    ensures |r| == |cards|
  {
    seq(|cards|, i requires 0 <= i < |cards| => CardLinks(cards[i], now))
  }

  /** `_parse_list_html_guest`: the link of every card with an `href`, in card order. */
  function ParseListing(cards: seq<Card>, now: nat): (r: seq<Link>)
    ensures |r| == 0 <==> forall i :: 0 <= i < |cards| ==> !HasHref(cards[i])
  {
    var groups := LinksPerCard(cards, now);
    FlattenEmpty(groups);
    assert forall i :: 0 <= i < |cards| ==> (|groups[i]| == 0 <==> !HasHref(cards[i]));
    Flatten(groups)
  }

  /** A parsed link is the link of a card with an `href`, and every such card gives its link. */
  lemma ParseListingMembers(cards: seq<Card>, now: nat, l: Link)
    ensures l in ParseListing(cards, now) <==> exists i :: 0 <= i < |cards| && HasHref(cards[i]) && l == CardLink(cards[i], now)
  {
    var groups := LinksPerCard(cards, now);
    FlattenMember(groups, l);
    assert forall i :: 0 <= i < |cards| ==> (l in groups[i] <==> HasHref(cards[i]) && l == CardLink(cards[i], now));
  }

  /** Parsing works card by card: the links of two runs of cards are the links of each, in order. */
  lemma ParseListingAppend(a: seq<Card>, b: seq<Card>, now: nat)
    ensures ParseListing(a + b, now) == ParseListing(a, now) + ParseListing(b, now)
  {
    var x, y, z := LinksPerCard(a + b, now), LinksPerCard(a, now), LinksPerCard(b, now);
    forall i | 0 <= i < |x| ensures x[i] == (y + z)[i] {
      if i < |a| { assert (a + b)[i] == a[i]; } else { assert (a + b)[i] == b[i - |a|]; }
    }
    assert x == y + z;
    FlattenAppend(y, z);
  }
}
