/**
  Which bucket a request of the mock service is charged to: the client address taken from the
  proxy headers (`Forwarded`, `X-Forwarded-For`, `X-Real-IP`) when the limiter trusts a proxy,
  else the socket's peer address; and the requests the limiter never charges. The token bucket
  itself (its floating-point refill and the lock around it) is the oracle `consume`.
*/
module RateLimit {
  import opened Wrappers
  import opened Strings
  import ApiFields

  /** The parts of a request the limiter reads; an absent header is the empty string. */
  datatype Request = Request(
    path: string,
    forwarded: string,
    xForwardedFor: string,
    xRealIp: string,
    remoteAddr: Option<string>)

  datatype Config = Config(enabled: bool, trustProxy: bool)

  /** Not charged, let through (429 when the bucket is empty), each with the bucket's key. */
  datatype Verdict = Exempt | Allowed(key: string) | Limited(key: string)

  // ----- _first_csv_token -----

  /** `_first_csv_token`: the first comma-separated part that is not blank, stripped. */
  function FirstCsvToken(value: string): (r: Option<string>)
    ensures r.Some? ==> r.value != [] && Trim(r.value) == r.value
  {
    FirstNonBlank(Split(value, ','))
  }

  /** The loop of `_first_csv_token` over the parts. */
  function FirstNonBlank(parts: seq<string>): (r: Option<string>)
    ensures r.Some? ==> r.value != [] && Trim(r.value) == r.value
  {
    if |parts| == 0 then None
    else
      var part := Trim(parts[0]);
      if part != [] then
        TrimIdempotent(parts[0]);
        Some(part)
      else FirstNonBlank(parts[1..])
  }

  /**
    The first token is the head of the token list the API splits header values into
    (`_split_header_tokens`): both take the stripped, non-blank comma-separated parts in order.
  */
  lemma {:induction false} FirstNonBlankIsHead(parts: seq<string>)
    ensures var tokens := ApiFields.TrimmedTokens(parts);
      FirstNonBlank(parts) == if tokens == [] then None else Some(tokens[0])
  {
    if |parts| > 0 {
      FirstNonBlankIsHead(parts[1..]);
    }
  }

  lemma FirstCsvTokenIsHead(value: string)
    ensures var tokens := ApiFields.SplitHeaderTokens(value);
      FirstCsvToken(value) == if tokens == [] then None else Some(tokens[0])
  {
    FirstNonBlankIsHead(Split(value, ','));
  }

  /** A header listing tokens yields the first one back. */
  lemma FirstCsvTokenOfList(tokens: seq<string>)
    requires |tokens| > 0 && ApiFields.HeaderTokens(tokens)
    ensures FirstCsvToken(Join(tokens, ",")) == Some(tokens[0])
  {
    FirstCsvTokenIsHead(Join(tokens, ","));
    ApiFields.TokensOfJoin(tokens);
  }

  // ----- _strip_ip_port -----

  /**
    `text.lower() == "unknown"`. Besides the ASCII letters, the only character whose lower case
    is one of these letters is KELVIN SIGN (U+212A), whose lower case is 'k'; no character lowers
    to a longer string that could equal this one.
  */
  predicate IsUnknown(text: string) {
    && |text| == 7
    && forall i :: 0 <= i < 7 ==> LowerChar(text[i]) == "unknown"[i] || (i == 4 && text[i] == '\U{212A}')
  }

  /** A character that lower-cases into 'a'..'z'. */
  predicate FoldsToLetter(c: char) {
    'a' <= LowerChar(c) <= 'z' || c == '\U{212A}'
  }

  /** "unknown" is made of letters only, so a text with any other character is not it. */
  lemma NotUnknownAt(text: string, i: nat)
    requires i < |text| && !FoldsToLetter(text[i])
    ensures !IsUnknown(text)
  {
    assert forall j :: 0 <= j < 7 ==> 'a' <= "unknown"[j] <= 'z';
  }

  /**
    `_strip_ip_port`: strip whitespace, then double quotes, and read the address in what is
    left.
  */
  function StripIpPort(value: string): (r: Option<string>)
    ensures r.Some? ==> r.value != []
  {
    Address(StripChar(Trim(value), '"'))
  }

  /**
    The address in a stripped text: blank or "unknown" gives `None`; "[host]..." gives `host`
    (`None` when "]" is missing or closes at once); "host:port" with a single colon and a
    decimal port gives `host`; anything else is returned whole.
  */
  function Address(text: string): (r: Option<string>)
    ensures r.Some? ==> r.value != []
    ensures r.None? <==> text == [] || IsUnknown(text) || (text[0] == '[' && Find(text, ']') <= 1)
  {
    if text == [] || IsUnknown(text) then None
    else if text[0] == '[' then
      var end := Find(text, ']');
      if end <= 1 then None else Some(text[1..end])
    else if Count(text, ':') == 1 then
      CountPresent(text, ':');
      var k := Find(text, ':');
      var host := text[..k];
      var port := text[k + 1..];
      if IsAllDigits(port) && host != [] then Some(host) else Some(text)
    else Some(text)
  }

  /** A host the parser passes through untouched: no padding, quotes, brackets or colon. */
  predicate PlainHost(h: string) {
    && h != [] && !IsUnknown(h)
    && !IsSpace(h[0]) && !IsSpace(h[|h| - 1])
    && h[0] != '"' && h[|h| - 1] != '"' && h[0] != '['
    && ':' !in h
  }

  /** Stripping leaves a text with no whitespace or quotes at its ends alone. */
  lemma StripsNothing(t: string)
    requires t != [] && !IsSpace(t[0]) && !IsSpace(t[|t| - 1]) && t[0] != '"' && t[|t| - 1] != '"'
    ensures StripChar(Trim(t), '"') == t
  {
    assert TrimLeft(t) == t;
    assert TrimRight(t) == t;
  }

  /** A plain host comes back as it is. */
  lemma StripPlainHost(h: string)
    requires PlainHost(h)
    ensures StripIpPort(h) == Some(h)
  {
    StripsNothing(h);
    CountAbsent(h, ':');
  }

  /** `host:port` with a decimal port gives the host. */
  lemma StripHostPort(h: string, port: string)
    requires PlainHost(h) && IsAllDigits(port)
    ensures StripIpPort(h + ":" + port) == Some(h)
  {
    var t := h + ":" + port;
    assert t[0] == h[0] && t[|t| - 1] == port[|port| - 1];
    StripsNothing(t);
    HostPortAddress(h, port);
  }

  lemma HostPortAddress(h: string, port: string)
    requires PlainHost(h) && IsAllDigits(port)
    ensures Address(h + ":" + port) == Some(h)
  {
    var t := h + ":" + port;
    assert t[|h|] == ':';
    NotUnknownAt(t, |h|);
    HostPortCount(h, port);
    FindAfter(h, ':', ":" + port);
    assert t == h + (":" + port);
    assert t[..|h|] == h && t[|h| + 1..] == port;
  }

  lemma HostPortCount(h: string, port: string)
    requires ':' !in h && IsAllDigits(port)
    ensures Count(h + ":" + port, ':') == 1
  {
    CountAbsent(h, ':');
    assert ':' !in port;
    CountAbsent(port, ':');
    CountConcat(h, ":" + port, ':');
    CountConcat(":", port, ':');
    assert h + ":" + port == h + (":" + port);
  }

  /** A bracketed host (an IPv6 address, with or without a port after it) gives what is inside. */
  lemma StripBracketed(a: string, rest: string)
    requires a != [] && ']' !in a
    requires rest == [] || (!IsSpace(rest[|rest| - 1]) && rest[|rest| - 1] != '"')
    ensures StripIpPort("[" + a + "]" + rest) == Some(a)
  {
    var t := "[" + a + "]" + rest;
    assert t[|t| - 1] == if rest == [] then ']' else rest[|rest| - 1];
    StripsNothing(t);
    BracketedAddress(a, rest);
  }

  lemma BracketedAddress(a: string, rest: string)
    requires a != [] && ']' !in a
    ensures Address("[" + a + "]" + rest) == Some(a)
  {
    var t := "[" + a + "]" + rest;
    NotUnknownAt(t, 0);
    assert ']' !in "[" + a;
    assert t == ("[" + a) + ("]" + rest);
    FindAfter("[" + a, ']', "]" + rest);
    assert t[1..|a| + 1] == a;
  }

  lemma CountAbsent(s: string, c: char)
    requires c !in s
    ensures Count(s, c) == 0
  {
    if |s| > 0 {
      CountAbsent(s[1..], c);
    }
  }

  lemma CountPresent(s: string, c: char)
    requires Count(s, c) > 0
    ensures c in s
  {
    if c !in s {
      CountAbsent(s, c);
    }
  }

  lemma {:induction false} CountConcat(a: string, b: string, c: char)
    ensures Count(a + b, c) == Count(a, c) + Count(b, c)
  {
    if |a| > 0 {
      CountConcat(a[1..], b, c);
      assert (a + b)[1..] == a[1..] + b;
    } else {
      assert a + b == b;
    }
  }

  /** The first `c` of `a + b` is the first of `b` when `a` has none. */
  lemma FindAfter(a: string, c: char, b: string)
    requires c !in a && |b| > 0 && b[0] == c
    ensures Find(a + b, c) == |a|
  {
    var s := a + b;
    assert s[|a|] == c;
    assert s[..|a|] == a;
    FindAt(s, c, |a|);
  }

  // ----- _forwarded_for -----

  /**
    One `key=value` pair of a `Forwarded` entry: `None` unless it has an '=', and its key,
    stripped and lower-cased, is "for"; then the address in the value.
  */
  function PairFor(pair: string): (r: Option<string>)
    ensures r.Some? ==> r.value != []
  {
    var k := Find(pair, '=');
    if k < 0 then None
    else if Lower(Trim(pair[..k])) != "for" then None
    else StripIpPort(pair[k + 1..])
  }

  /** The inner loop: the first pair that yields an address. */
  function FirstFor(pairs: seq<string>): (r: Option<string>)
    ensures r.Some? ==> r.value != []
    ensures r.None? <==> forall i :: 0 <= i < |pairs| ==> PairFor(pairs[i]).None?
  {
    if |pairs| == 0 then None
    else
      match PairFor(pairs[0])
      case Some(a) => Some(a)
      case None =>
        assert forall i :: 1 <= i < |pairs| ==> pairs[i] == pairs[1..][i - 1];
        FirstFor(pairs[1..])
  }

  /** A hit of the inner loop is the address of some pair, and every pair before it has none. */
  lemma {:induction false} FirstForIsFirst(pairs: seq<string>)
    requires FirstFor(pairs).Some?
    ensures exists i :: 0 <= i < |pairs| && PairFor(pairs[i]) == FirstFor(pairs)
                        && forall j :: 0 <= j < i ==> PairFor(pairs[j]).None?
  {
    if PairFor(pairs[0]).Some? {
      assert PairFor(pairs[0]) == FirstFor(pairs);
    } else {
      FirstForIsFirst(pairs[1..]);
      var i :| 0 <= i < |pairs[1..]| && PairFor(pairs[1..][i]) == FirstFor(pairs[1..])
                && forall j :: 0 <= j < i ==> PairFor(pairs[1..][j]).None?;
      assert PairFor(pairs[i + 1]) == FirstFor(pairs);
      forall j | 0 <= j < i + 1 ensures PairFor(pairs[j]).None? {
        if j > 0 { assert pairs[j] == pairs[1..][j - 1]; }
      }
    }
  }

  /** The outer loop over the comma-separated entries. */
  function EntriesFor(entries: seq<string>): (r: Option<string>)
    ensures r.Some? ==> r.value != []
  {
    if |entries| == 0 then None
    else
      match FirstFor(Split(entries[0], ';'))
      case Some(a) => Some(a)
      case None => EntriesFor(entries[1..])
  }

  /**
    `_forwarded_for`: the address of the first pair, across all entries, that carries one; and
    `None` exactly when no pair does.
  */
  function ForwardedFor(header: string): (r: Option<string>)
    ensures r.Some? ==> r.value != []
    ensures var pairs := PairsOf(Split(header, ','));
      && r == FirstFor(pairs)
      && (r.None? <==> forall i :: 0 <= i < |pairs| ==> PairFor(pairs[i]).None?)
  {
    EntriesForFlat(Split(header, ','));
    EntriesFor(Split(header, ','))
  }

  /** Every `;`-separated pair of every `,`-separated entry, in reading order. */
  function PairsOf(entries: seq<string>): seq<string> {
    if |entries| == 0 then [] else Split(entries[0], ';') + PairsOf(entries[1..])
  }

  /** The first hit of a concatenation is the first hit of its front, else of its back. */
  lemma {:induction false} FirstForConcat(a: seq<string>, b: seq<string>)
    ensures FirstFor(a + b) == if FirstFor(a).Some? then FirstFor(a) else FirstFor(b)
    decreases |a|
  {
    if |a| == 0 {
      assert a + b == b;
    } else {
      assert (a + b)[0] == a[0];
      assert (a + b)[1..] == a[1..] + b;
      FirstForConcat(a[1..], b);
    }
  }

  /** Stopping at the first entry with a hit is the same as scanning all the pairs at once. */
  lemma {:induction false} EntriesForFlat(entries: seq<string>)
    ensures EntriesFor(entries) == FirstFor(PairsOf(entries))
    decreases |entries|
  {
    if |entries| > 0 {
      EntriesForFlat(entries[1..]);
      FirstForConcat(Split(entries[0], ';'), PairsOf(entries[1..]));
    }
  }

  /** A pair whose key reads "for" yields the parsed value. */
  lemma PairForKey(key: string, value: string)
    requires '=' !in key && Lower(Trim(key)) == "for"
    ensures PairFor(key + "=" + value) == StripIpPort(value)
  {
    var p := key + ("=" + value);
    assert key + "=" + value == p;
    FindAfter(key, '=', "=" + value);
    CutAround(key, '=', value);
  }

  lemma CutAround(a: string, c: char, b: string)
    ensures (a + ([c] + b))[..|a|] == a && (a + ([c] + b))[|a| + 1..] == b
  {
  }

  /** A pair with another key, or with no '=', yields nothing. */
  lemma PairForOtherKey(pair: string)
    requires var k := Find(pair, '='); k < 0 || Lower(Trim(pair[..k])) != "for"
    ensures PairFor(pair) == None
  {
  }

  // ----- _trusted_proxy_ip and _key -----

  /** `if parsed:` — an address that is present and not empty. */
  predicate Truthy(o: Option<string>) {
    o.Some? && o.value != []
  }

  /**
    `_trusted_proxy_ip`: the `Forwarded` address, else the first `X-Forwarded-For` token's,
    else the `X-Real-IP` address.
  */
  function TrustedProxyIp(rq: Request): (r: Option<string>)
    ensures r.Some? ==> r.value != []
  {
    var fwd := ForwardedAddress(rq.forwarded);
    if Truthy(fwd) then fwd
    else
      var xff := XffAddress(rq.xForwardedFor);
      if Truthy(xff) then xff
      else
        var realIp := RealIpAddress(rq.xRealIp);
        if Truthy(realIp) then realIp else None
  }

  /** The `Forwarded` step: a non-empty header's first `for=` address. */
  function ForwardedAddress(header: string): (r: Option<string>)
    ensures r.Some? ==> r.value != []
  {
    if header != [] then ForwardedFor(header) else None
  }

  /** The `X-Forwarded-For` step: the address in a non-empty header's first token. */
  function XffAddress(header: string): (r: Option<string>)
    ensures r.Some? ==> r.value != []
  {
    if header != [] then StripIpPort(FirstCsvToken(header).GetOr("")) else None
  }

  /** The `X-Real-IP` step: the address in a non-empty header. */
  function RealIpAddress(header: string): (r: Option<string>)
    ensures r.Some? ==> r.value != []
  {
    if header != [] then StripIpPort(header) else None
  }

  /** The first of two lookups that found something. */
  function OrElse(a: Option<string>, b: Option<string>): Option<string> {
    if a.Some? then a else b
  }

  /**
    The headers in order of precedence, each one deciding unless an earlier one found an
    address; the `if header:` guards of the source change nothing, as an empty header has none.
  */
  lemma ProxyPrecedence(rq: Request)
    ensures TrustedProxyIp(rq) == OrElse(ForwardedFor(rq.forwarded),
      OrElse(StripIpPort(FirstCsvToken(rq.xForwardedFor).GetOr("")), StripIpPort(rq.xRealIp)))
  {
    GuardsRedundant(rq.forwarded);
    GuardsRedundant(rq.xForwardedFor);
    GuardsRedundant(rq.xRealIp);
  }

  /** Each step reads an empty header as no address, guard or not. */
  lemma GuardsRedundant(h: string)
    ensures ForwardedAddress(h) == ForwardedFor(h)
    ensures XffAddress(h) == StripIpPort(FirstCsvToken(h).GetOr(""))
    ensures RealIpAddress(h) == StripIpPort(h)
  {
    if h == [] {
      EmptyForwarded(h);
      EmptyXff(h);
      EmptyStrip(h);
    }
  }

  /** An empty header carries no address. */
  lemma EmptyForwarded(h: string)
    requires h == []
    ensures ForwardedFor(h) == None
  {
    var parts := [h];
    assert Split(h, ',') == parts && Split(h, ';') == parts;
    assert parts[1..] == [];
    assert PairFor(h) == None by {
      assert Find(h, '=') == -1;
    }
    assert FirstFor(parts) == None;
    assert EntriesFor(parts[1..]) == None;
  }

  lemma EmptyXff(h: string)
    requires h == []
    ensures FirstCsvToken(h) == None
  {
    var parts := [h];
    assert Split(h, ',') == parts;
    assert Trim(h) == [];
    assert parts[1..] == [];
    assert FirstNonBlank(parts[1..]) == None;
  }

  lemma EmptyStrip(h: string)
    requires h == []
    ensures StripIpPort(h) == None
  {
    assert Trim(h) == h;
  }

  /** `_key`: the proxy's client address when trusted and present, else the peer, else "unknown". */
  function Key(cfg: Config, rq: Request): (r: string)
    ensures r != []
  {
    var proxy := if cfg.trustProxy then TrustedProxyIp(rq) else None;
    if Truthy(proxy) then proxy.value
    else if rq.remoteAddr.Some? && rq.remoteAddr.value != [] then rq.remoteAddr.value
    else "unknown"
  }

  /**
    Without a trusted proxy the client cannot choose its bucket: requests from one peer share a
    key whatever headers they send.
  */
  lemma KeyIgnoresHeadersUntrusted(cfg: Config, a: Request, b: Request)
    requires !cfg.trustProxy && a.remoteAddr == b.remoteAddr
    ensures Key(cfg, a) == Key(cfg, b)
  {
  }

  /** Behind a trusted proxy the forwarded client address is the key, and the peer only a fallback. */
  lemma KeyTrusted(cfg: Config, rq: Request)
    requires cfg.trustProxy
    ensures TrustedProxyIp(rq).Some? ==> Key(cfg, rq) == TrustedProxyIp(rq).value
    ensures TrustedProxyIp(rq).None? ==> Key(cfg, rq) == Key(cfg.(trustProxy := false), rq)
  {
  }

  // ----- check -----

  /**
    `check`: a disabled limiter and the health probe are never charged; every other request
    spends a token of its key's bucket, and is refused with 429 when there is none.
  */
  function Check(cfg: Config, rq: Request, consume: string -> bool): (r: Verdict)
    ensures r.Exempt? <==> !cfg.enabled || rq.path == "/health"
    ensures !r.Exempt? ==> r.key == Key(cfg, rq)
  {
    if !cfg.enabled then Exempt
    else if rq.path == "/health" then Exempt
    else
      var key := Key(cfg, rq);
      if consume(key) then Allowed(key) else Limited(key)
  }

  /** Exempt requests never consult the bucket: any two buckets give the same verdict. */
  lemma ExemptIgnoresBucket(cfg: Config, rq: Request, c1: string -> bool, c2: string -> bool)
    requires !cfg.enabled || rq.path == "/health"
    ensures Check(cfg, rq, c1) == Check(cfg, rq, c2) == Exempt
  {
  }

  /** A charged request is judged by its own key's bucket alone. */
  lemma ChargedByOwnKey(cfg: Config, rq: Request, c1: string -> bool, c2: string -> bool)
    requires cfg.enabled && rq.path != "/health"
    requires c1(Key(cfg, rq)) == c2(Key(cfg, rq))
    ensures Check(cfg, rq, c1) == Check(cfg, rq, c2)
    ensures Check(cfg, rq, c1).Limited? <==> !c1(Key(cfg, rq))
  {
  }
}
