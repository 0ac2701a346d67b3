/**
  The requests the client sends to the Pterodactyl client API, as structured
  calls (`Call`) and as wire requests (`Request`: method, path, JSON body).
  `Render` builds the wire request exactly as the client concatenates it;
  `Parse` recovers the call from a wire request, so a trace of calls and the
  trace of wire requests determine each other.
 */
module Requests {
  import opened Outcomes

  /** The power signals this client sends. */
  datatype Signal = Start | Stop

  /** The signal's wire token, as the power endpoint expects it. */
  function Token(s: Signal): string
  {
    match s
    case Start => "start"
    case Stop => "stop"
  }

  /** The verb of the informational log line written before a power request. */
  function Verb(s: Signal): (v: string)
    ensures v == "Starting" <==> s == Start
    ensures v == "Stopping" <==> s != Start
  {
    if s == Start then "Starting" else "Stopping"
  }

  datatype Method = Get | Post

  datatype Request = Request(httpMethod: Method, path: string, body: Option<string>)

  /** One call to the panel, naming the server by its Pterodactyl identifier. */
  datatype Call =
    | PowerCall(server: string, signal: Signal)
    | StatusCall(server: string)
    | RestoreCall(server: string, backup: string)
  {
    /** A restore path can be split back only if the server id is one path segment. */
    predicate WellFormed()
    {
      RestoreCall? ==> Segment(server)
    }
  }

  predicate Segment(s: string)
  {
    '/' !in s
  }

  const ServersPrefix := "/api/client/servers/"
  const PowerSuffix := "/power"
  const StatusSuffix := "/resources"
  const BackupsInfix := "/backups/"
  const RestoreSuffix := "/restore"
  /** Restore asks the panel to delete all files before restoring. */
  const TruncateBody := "{\"truncate\":true}"

  function SignalBody(s: Signal): string
  {
    "{\"signal\": \"" + Token(s) + "\"}"
  }

  /** The wire request the client builds for a call. */
  function Render(c: Call): (r: Request)
    ensures r.httpMethod == Get <==> c.StatusCall?
    ensures r.body.None? <==> c.StatusCall?
    ensures |r.path| > |ServersPrefix| + |c.server|
    ensures r.path[..|ServersPrefix|] == ServersPrefix
    ensures r.path[|ServersPrefix|..|ServersPrefix| + |c.server|] == c.server
  {
    match c
    case PowerCall(id, s) =>
      Request(Post, ServersPrefix + id + PowerSuffix, Some(SignalBody(s)))
    case StatusCall(id) =>
      Request(Get, ServersPrefix + id + StatusSuffix, None)
    case RestoreCall(id, b) =>
      Request(Post, ServersPrefix + id + BackupsInfix + b + RestoreSuffix, Some(TruncateBody))
  }

  /** The part of `s` strictly between prefix `p` and suffix `q`, if `s` has that shape. */
  function Between(s: string, p: string, q: string): (r: Option<string>)
    ensures r.Some? ==> s == p + r.value + q
  {
    if |p| + |q| <= |s| && s[..|p|] == p && s[|s| - |q|..] == q then
      var m := s[|p|..|s| - |q|];
      assert s == p + m + q;
      Some(m)
    else
      None
  }

  lemma BetweenOf(p: string, m: string, q: string)
    ensures Between(p + m + q, p, q) == Some(m)
  {
    var s := p + m + q;
    assert s[..|p|] == p;
    assert s[|s| - |q|..] == q;
    assert s[|p|..|s| - |q|] == m;
  }

  /** Index of the first '/' in `s`, or `|s|` when there is none. */
  function SlashIndex(s: string): (i: nat)
    ensures i <= |s|
    ensures Segment(s[..i])
    ensures i < |s| ==> s[i] == '/'
  {
    if |s| == 0 then 0
    else if s[0] == '/' then 0
    else
      var i := 1 + SlashIndex(s[1..]);
      assert s[..i] == [s[0]] + s[1..][..i - 1];
      i
  }

  lemma {:induction false} SlashIndexAfterSegment(a: string, b: string)
    requires Segment(a)
    requires |b| > 0 && b[0] == '/'
    ensures SlashIndex(a + b) == |a|
  {
    if |a| > 0 {
      assert (a + b)[1..] == a[1..] + b;
      SlashIndexAfterSegment(a[1..], b);
    }
  }

  /** Splits `s` into a single path segment, `infix`, and the rest, cutting at the first '/'. */
  function SplitAfterSegment(s: string, infix: string): (r: Option<(string, string)>)
    ensures r.Some? ==> Segment(r.value.0) && s == r.value.0 + infix + r.value.1
  {
    var i := SlashIndex(s);
    var rest := s[i..];
    if |infix| <= |rest| && rest[..|infix|] == infix then
      assert s == s[..i] + rest;
      assert rest == infix + rest[|infix|..];
      Some((s[..i], rest[|infix|..]))
    else
      None
  }

  lemma SplitAfterSegmentOf(a: string, infix: string, b: string)
    requires Segment(a)
    requires |infix| > 0 && infix[0] == '/'
    ensures SplitAfterSegment(a + infix + b, infix) == Some((a, b))
  {
    var s := a + infix + b;
    assert s == a + (infix + b);
    SlashIndexAfterSegment(a, infix + b);
    assert s[|a|..] == infix + b;
    assert s[..|a|] == a;
    assert (infix + b)[..|infix|] == infix;
    assert (infix + b)[|infix|..] == b;
  }

  lemma Regroup<T>(p: seq<T>, a: seq<T>, i: seq<T>, b: seq<T>, q: seq<T>)
    ensures p + a + i + b + q == p + (a + i + b) + q
  {
  }

  /** Splits "<id>/backups/<uuid>" at the first '/' of the server id. */
  function SplitRestore(mid: string): (r: Option<Call>)
    ensures r.Some? ==> r.value.RestoreCall? && r.value.WellFormed()
    ensures r.Some? ==> mid == r.value.server + BackupsInfix + r.value.backup
  {
    match SplitAfterSegment(mid, BackupsInfix)
    case Some((id, backup)) => Some(RestoreCall(id, backup))
    case None => None
  }

  /** The signal whose body is `body`, if it is one of the two signal bodies. */
  function SignalOfBody(body: Option<string>): (r: Option<Signal>)
    ensures r.Some? ==> body == Some(SignalBody(r.value))
  {
    if body == Some(SignalBody(Start)) then Some(Start)
    else if body == Some(SignalBody(Stop)) then Some(Stop)
    else None
  }

  /** Recovers the call a wire request stands for, if it is one of the client's requests. */
  function Parse(r: Request): (c: Option<Call>)
  {
    if r.httpMethod == Get then
      if r.body.Some? then None
      else (
        match Between(r.path, ServersPrefix, StatusSuffix)
        case Some(id) => Some(StatusCall(id))
        case None => None)
    else if r.body == Some(TruncateBody) then (
      match Between(r.path, ServersPrefix, RestoreSuffix)
      case Some(mid) => SplitRestore(mid)
      case None => None)
    else (
      match (SignalOfBody(r.body), Between(r.path, ServersPrefix, PowerSuffix))
      case (Some(s), Some(id)) => Some(PowerCall(id, s))
      case _ => None)
  }

  /** Every well-formed call is recovered from the request built for it. */
  lemma ParseRender(c: Call)
    requires c.WellFormed()
    ensures Parse(Render(c)) == Some(c)
  {
    match c
    case PowerCall(id, s) => ParsePower(id, s);
    case StatusCall(id) => ParseStatus(id);
    case RestoreCall(id, b) => ParseRestore(id, b);
  }

  lemma ParsePower(id: string, s: Signal)
    ensures Parse(Render(PowerCall(id, s))) == Some(PowerCall(id, s))
  {
    var r := Render(PowerCall(id, s));
    assert |TruncateBody| == 17 && |SignalBody(s)| >= 18;
    assert r.body != Some(TruncateBody);
    assert SignalOfBody(r.body) == Some(s) by {
      assert |SignalBody(Start)| == 19 && |SignalBody(Stop)| == 18;
    }
    BetweenOf(ServersPrefix, id, PowerSuffix);
  }

  lemma ParseStatus(id: string)
    ensures Parse(Render(StatusCall(id))) == Some(StatusCall(id))
  {
    BetweenOf(ServersPrefix, id, StatusSuffix);
  }

  lemma ParseRestore(id: string, b: string)
    requires Segment(id)
    ensures Parse(Render(RestoreCall(id, b))) == Some(RestoreCall(id, b))
  {
    var mid := id + BackupsInfix + b;
    Regroup(ServersPrefix, id, BackupsInfix, b, RestoreSuffix);
    BetweenOf(ServersPrefix, mid, RestoreSuffix);
    SplitAfterSegmentOf(id, BackupsInfix, b);
    assert |TruncateBody| == 17;
  }

  /** Whatever `Parse` accepts is exactly the request built for the call it returns. */
  lemma RenderParse(r: Request, c: Call)
    requires Parse(r) == Some(c)
    ensures c.WellFormed() && Render(c) == r
  {
    if r.httpMethod == Get {
      var id := Between(r.path, ServersPrefix, StatusSuffix).value;
      assert c == StatusCall(id);
    } else if r.body == Some(TruncateBody) {
      var mid := Between(r.path, ServersPrefix, RestoreSuffix).value;
      assert c == SplitRestore(mid).value;
      Regroup(ServersPrefix, c.server, BackupsInfix, c.backup, RestoreSuffix);
    } else {
      var s := SignalOfBody(r.body).value;
      var id := Between(r.path, ServersPrefix, PowerSuffix).value;
      assert c == PowerCall(id, s);
    }
  }

  /** Distinct well-formed calls never produce the same wire request. */
  lemma RenderInjective(c1: Call, c2: Call)
    requires c1.WellFormed() && c2.WellFormed()
    requires Render(c1) == Render(c2)
    ensures c1 == c2
  {
    ParseRender(c1);
    ParseRender(c2);
  }
}
