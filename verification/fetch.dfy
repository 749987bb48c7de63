/**
 * The four HTTP helpers, reduced to their retry-and-return logic. The
 * network is a parameter: `net(k)` is what the k-th attempt (from 0) of
 * one call would meet. Sleeps between attempts and the random choice of
 * user agent are not modelled; the agent is a parameter.
 */
module Fetch {

  import opened Wrappers
  import opened Py

  /**
   * What one request attempt ends in: a response (its status, its text and,
   * when the text is a JSON document, the value it decodes to), or an
   * exception raised by the request itself.
   */
  datatype Outcome =
    | Reply(status: int, text: string, json: Option<Json>)
    | Timeout
    | ConnectionError
    | OtherRequestError

  /** The network as one call of a fetch helper meets it, attempt by attempt. */
  type Net = nat -> Outcome

  /** `raise_for_status()` raises for client (4xx) and server (5xx) statuses. */
  predicate ErrorStatus(status: int) {
    400 <= status < 600
  }

  /**
   * One attempt of a JSON helper: the decoded body, or None (`JNull`) when
   * the attempt raised, the status was an error, or the body was not JSON.
   * A body that decodes to `null` is indistinguishable from a failure.
   */
  function JsonReply(o: Outcome): (r: Json)
    ensures !o.Reply? ==> r == JNull
    ensures o.Reply? && ErrorStatus(o.status) ==> r == JNull
    ensures o.Reply? && o.json.None? ==> r == JNull
    ensures r != JNull ==> o.Reply? && !ErrorStatus(o.status) && o.json == Some(r)
  {
    match o
    case Reply(status, _, json) => if ErrorStatus(status) || json.None? then JNull else json.value
    case _ => JNull
  }

  // ------------------------------------------------------------ single attempt

  /** Laborum's POST: one attempt, any exception gives None. */
  function LaborumFetch(net: Net): (r: Json)
    ensures r != JNull <==> net(0).Reply? && !ErrorStatus(net(0).status) && net(0).json.Some? && net(0).json.value != JNull
    ensures r != JNull ==> Some(r) == net(0).json
  {
    JsonReply(net(0))
  }

  /** Trabajo con Sentido's GET: one attempt, any exception gives None. */
  function TcsFetch(net: Net): (r: Json)
    ensures r != JNull <==> net(0).Reply? && !ErrorStatus(net(0).status) && net(0).json.Some? && net(0).json.value != JNull
    ensures r != JNull ==> Some(r) == net(0).json
  {
    JsonReply(net(0))
  }

  // ------------------------------------------------------------ LinkedIn

  /** The only attempt LinkedIn's helper accepts: status 200 with a non-empty body. */
  predicate LinkedinOk(o: Outcome) {
    o.Reply? && o.status == 200 && |o.text| > 0
  }

  function AttemptBudget(n: int): nat {
    if n > 0 then n else 0
  }

  /**
   * LinkedIn's GET with up to `retries` attempts. Every attempt that is not
   * a 200 with a body (a 429 or 403, any other status, an empty 200, a
   * request exception) only uses up an attempt; the first accepted body is
   * returned. `used` counts the attempts made.
   */
  method LinkedinFetch(net: Net, retries: int) returns (text: Option<string>, used: nat)
    ensures used <= AttemptBudget(retries)
    ensures forall k :: 0 <= k < used - 1 ==> !LinkedinOk(net(k))
    ensures text.Some? <==> exists k :: 0 <= k < AttemptBudget(retries) && LinkedinOk(net(k))
    ensures text.Some? ==> used >= 1 && LinkedinOk(net(used - 1)) && text.value == net(used - 1).text
    ensures text.None? ==> used == AttemptBudget(retries)
  {
    var budget := AttemptBudget(retries);
    used := 0;
    while used < budget
      invariant used <= budget
      invariant forall k :: 0 <= k < used ==> !LinkedinOk(net(k))
      decreases budget - used
    {
      var o := net(used);
      used := used + 1;
      if LinkedinOk(o) {
        return Some(o.text), used;
      }
    }
    text := None;
  }

  // ------------------------------------------------------------ Trabajando

  /** The exceptions Trabajando's helper retries after. */
  predicate Transient(o: Outcome) {
    o.Timeout? || o.ConnectionError?
  }

  /**
   * Trabajando's GET with up to `retries + 1` attempts. A timeout or a
   * connection error leads to another attempt; anything else ends the call,
   * with the decoded body or, for an error status, another request
   * exception or a body that is not JSON, with None. Running out of
   * attempts gives None too.
   */
  method TrabajandoFetch(net: Net, retries: int) returns (data: Json, used: nat)
    ensures used <= AttemptBudget(retries + 1)
    ensures forall k :: 0 <= k < used - 1 ==> Transient(net(k))
    ensures used >= 1 && !Transient(net(used - 1)) ==> data == JsonReply(net(used - 1))
    ensures used == 0 || Transient(net(used - 1)) ==> data == JNull && used == AttemptBudget(retries + 1)
    ensures data != JNull ==> exists k :: 0 <= k < AttemptBudget(retries + 1) && net(k).Reply? && Some(data) == net(k).json
  {
    var budget := AttemptBudget(retries + 1);
    used := 0;
    while used < budget
      invariant used <= budget
      invariant forall k :: 0 <= k < used ==> Transient(net(k))
      decreases budget - used
    {
      var o := net(used);
      used := used + 1;
      if !Transient(o) {
        return JsonReply(o), used;
      }
    }
    data := JNull;
  }

  // ------------------------------------------------------------ headers

  /** A headers dict as its entries in insertion order. */
  type Headers = seq<(string, string)>

  function HeaderGet(h: Headers, name: string): (r: Option<string>)
    ensures r.Some? <==> exists i :: 0 <= i < |h| && h[i].0 == name
  {
    if |h| == 0 then None
    else if h[0].0 == name then Some(h[0].1)
    else
      var r := HeaderGet(h[1..], name);
      assert forall i :: 1 <= i < |h| ==> h[i] == h[1..][i - 1];
      r
  }

  /** `h[name] = value`: an existing entry is overwritten in place, a new one goes last. */
  function SetHeader(h: Headers, name: string, value: string): (r: Headers)
    ensures HeaderGet(r, name) == Some(value)
    ensures forall other :: other != name ==> HeaderGet(r, other) == HeaderGet(h, other)
  {
    if |h| == 0 then [(name, value)]
    else if h[0].0 == name then [(name, value)] + h[1..]
    else [h[0]] + SetHeader(h[1..], name, value)
  }

  /** `h.setdefault(name, value)`: only a missing entry is added. */
  function SetDefaultHeader(h: Headers, name: string, value: string): (r: Headers)
    ensures HeaderGet(h, name).Some? ==> r == h
    ensures HeaderGet(r, name) == Some(HeaderGet(h, name).GetOr(value))
    ensures forall other :: other != name ==> HeaderGet(r, other) == HeaderGet(h, other)
  {
    if HeaderGet(h, name).Some? then h else SetHeader(h, name, value)
  }

  /** The headers Laborum's and Trabajo con Sentido's helpers send: the caller's, with the agent set. */
  function AgentHeaders(h: Headers, agent: string): (r: Headers)
    ensures HeaderGet(r, "User-Agent") == Some(agent)
    ensures forall other :: other != "User-Agent" ==> HeaderGet(r, other) == HeaderGet(h, other)
  {
    SetHeader(h, "User-Agent", agent)
  }

  /** Trabajando's headers: the agent is set, and `Accept` is JSON unless the caller chose one. */
  function TrabajandoHeaders(h: Headers, agent: string): (r: Headers)
    ensures HeaderGet(r, "User-Agent") == Some(agent)
    ensures HeaderGet(h, "Accept").Some? ==> HeaderGet(r, "Accept") == HeaderGet(h, "Accept")
    ensures HeaderGet(h, "Accept").None? ==> HeaderGet(r, "Accept") == Some("application/json")
  {
    SetDefaultHeader(SetHeader(h, "User-Agent", agent), "Accept", "application/json")
  }

  /** LinkedIn's headers, built afresh for every attempt. */
  function LinkedinHeaders(agent: string): (r: Headers)
    ensures HeaderGet(r, "User-Agent") == Some(agent)
    ensures |r| == 5
  {
    [("User-Agent", agent),
     ("Accept-Language", "es-ES,es;q=0.9,en;q=0.8"),
     ("Accept", "text/html,application/xhtml+xml,application/xml;q=0.9,*/*;q=0.8"),
     ("Connection", "keep-alive"),
     ("Upgrade-Insecure-Requests", "1")]
  }
}
