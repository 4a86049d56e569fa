/**
 * The requests the debounced search sends (the `getResults` callback of
 * components/Search.tsx): one GET per chain environment against the search endpoint, with
 * the same query, offset and limit.
 */
module SearchRequests {
  import opened Wrappers
  import opened QueryString

  /** The two chain environments searched side by side. */
  datatype Env = Mainnet | Testnet

  function EnvName(e: Env): string {
    match e
    case Mainnet => "mainnet"
    case Testnet => "testnet"
  }

  function Other(e: Env): (o: Env)
    ensures o != e
  {
    match e
    case Mainnet => Testnet
    case Testnet => Mainnet
  }

  /** The search component starts at offset 0 with a page of 50 and never changes either. */
  const InitialOffset: nat := 0
  const InitialLimit: nat := 50

  datatype Request = Request(network: Env, query: string, offset: nat, limit: nat)

  /** The two requests of one search. */
  function Fetches(q: string, offset: nat, limit: nat): (rs: seq<Request>)
    ensures |rs| == 2
    ensures {rs[0].network, rs[1].network} == {Mainnet, Testnet}
    ensures forall i :: 0 <= i < |rs| ==> rs[i].query == q && rs[i].offset == offset && rs[i].limit == limit
  {
    [Request(Mainnet, q, offset, limit), Request(Testnet, q, offset, limit)]
  }

  // ---------------------------------------------------------------------------
  // Numbers in a template literal: base-10 digits, no leading zero.

  predicate IsDigit(c: char) {
    '0' <= c <= '9'
  }

  function Decimal(n: nat): (s: string)
    ensures 1 <= |s|
    ensures forall i :: 0 <= i < |s| ==> IsDigit(s[i])
    ensures s[0] == '0' ==> n == 0
    decreases n
  {
    if n < 10 then [('0' as int + n) as char]
    else Decimal(n / 10) + [('0' as int + n % 10) as char]
  }

  function DigitValue(c: char): (d: nat)
    requires IsDigit(c)
    ensures d < 10
  {
    c as int - '0' as int
  }

  function DecimalValue(s: string): nat
    requires forall i :: 0 <= i < |s| ==> IsDigit(s[i])
    decreases |s|
  {
    if |s| == 0 then 0
    else DecimalValue(s[..|s| - 1]) * 10 + DigitValue(s[|s| - 1])
  }

  lemma {:induction false} DecimalRoundTrip(n: nat)
    ensures DecimalValue(Decimal(n)) == n
    decreases n
  {
    if n >= 10 {
      var s := Decimal(n);
      assert s[..|s| - 1] == Decimal(n / 10);
      DecimalRoundTrip(n / 10);
    }
  }

  // ---------------------------------------------------------------------------
  // The request URL.

  const SearchPath: string := "/api/search/contracts"

  /** The four pairs of a search URL, in the order the component writes them, with
      `queryText` standing for the query. */
  function Pairs(r: Request, queryText: string): seq<string> {
    [Pair("network", EnvName(r.network)), Pair("query", queryText),
     Pair("offset", Decimal(r.offset)), Pair("limit", Decimal(r.limit))]
  }

  /** `${base}/api/search/contracts?network=…&query=…&offset=…&limit=…`. */
  function UrlWith(base: string, r: Request, queryText: string): string {
    base + SearchPath + "?" + Join(Pairs(r, queryText), '&')
  }

  /** The URL as the component builds it: the query is interpolated without encoding. */
  function RawSearchUrl(base: string, r: Request): string {
    UrlWith(base, r, r.query)
  }

  /** The URL with the query percent-encoded, as `encodeURIComponent` would. */
  function SearchUrl(base: string, r: Request): string {
    UrlWith(base, r, PercentEncode(r.query))
  }

  /** No part holds a `&`, a `#`, a tab or a newline. */
  ghost predicate Separable(parts: seq<string>) {
    forall i, j :: 0 <= i < |parts| && 0 <= j < |parts[i]| ==> parts[i][j] !in {'&', '#', '\t', '\n', '\r'}
  }

  /** Joining with `&` adds no `#`, tab or newline. */
  lemma {:induction false} JoinFree(parts: seq<string>)
    requires Separable(parts)
    ensures forall j :: 0 <= j < |Join(parts, '&')| ==> Join(parts, '&')[j] !in {'#', '\t', '\n', '\r'}
    decreases |parts|
  {
    if |parts| > 1 {
      JoinFree(parts[1..]);
      var rest := Join(parts[1..], '&');
      assert Join(parts, '&') == parts[0] + "&" + rest;
      assert forall j :: 0 <= j < |rest| ==> rest[j] !in {'#', '\t', '\n', '\r'};
    }
  }

  /** The search path adds no `?` and no `#` to a base that has neither. */
  lemma PathClean(base: string)
    requires '?' !in base && '#' !in base
    ensures '?' !in base + SearchPath && '#' !in base + SearchPath
  {
    var prefix := base + SearchPath;
    forall j | 0 <= j < |prefix| ensures prefix[j] != '?' && prefix[j] != '#' {
      if j < |base| {
        assert prefix[j] == base[j] && base[j] in base;
      } else {
        assert prefix[j] == SearchPath[j - |base|];
      }
    }
  }

  /** The endpoint splits the query string of a search URL back into the pairs written. */
  lemma SplitUrl(base: string, parts: seq<string>)
    requires '?' !in base && '#' !in base
    requires |parts| >= 1 && Separable(parts)
    ensures Split(QueryOf(base + SearchPath + "?" + Join(parts, '&')), '&') == parts
  {
    PathClean(base);
    JoinFree(parts);
    var joined := Join(parts, '&');
    assert forall j :: 0 <= j < |joined| ==> joined[j] in joined;
    QueryOfUrl(base + SearchPath, joined);
    StripClean(joined);
    SplitJoin(parts, '&');
  }

  lemma PairsSeparable(r: Request, queryText: string)
    requires forall i :: 0 <= i < |queryText| ==> queryText[i] !in {'&', '#', '\t', '\n', '\r'}
    ensures Separable(Pairs(r, queryText))
  {
    var pairs := Pairs(r, queryText);
    forall i, j | 0 <= i < |pairs| && 0 <= j < |pairs[i]|
      ensures pairs[i][j] !in {'&', '#', '\t', '\n', '\r'}
    {
      if i == 1 && j >= 6 {
        assert pairs[i][j] == queryText[j - 6];
      } else if i == 2 && j >= 7 {
        assert pairs[i][j] == Decimal(r.offset)[j - 7];
      } else if i == 3 && j >= 6 {
        assert pairs[i][j] == Decimal(r.limit)[j - 6];
      }
    }
  }

  /** A pair whose name is not `key` is passed over. */
  lemma ReadSkip(pairs: seq<string>, key: string)
    requires |pairs| > 0 && PercentDecode(NameOf(pairs[0])) != key
    ensures Lookup(pairs, key) == Lookup(pairs[1..], key)
  {
  }

  lemma ReadFirst(pairs: seq<string>, key: string)
    requires |pairs| > 0 && PercentDecode(NameOf(pairs[0])) == key
    ensures Lookup(pairs, key) == Some(PercentDecode(ValueOf(pairs[0])))
  {
  }

  /** The names of the four parameters. */
  datatype Key = NetworkKey | QueryKey | OffsetKey | LimitKey

  function KeyName(k: Key): string {
    match k
    case NetworkKey => "network"
    case QueryKey => "query"
    case OffsetKey => "offset"
    case LimitKey => "limit"
  }

  lemma KeyPairParts(k: Key, value: string)
    ensures PercentDecode(NameOf(Pair(KeyName(k), value))) == KeyName(k)
    ensures ValueOf(Pair(KeyName(k), value)) == value
  {
    match k
    case NetworkKey => PairParts("network", value);
    case QueryKey => PairParts("query", value);
    case OffsetKey => PairParts("offset", value);
    case LimitKey => PairParts("limit", value);
  }

  /** The names of the four pairs read back as written. */
  lemma PairNames(r: Request, queryText: string)
    ensures PercentDecode(NameOf(Pairs(r, queryText)[0])) == "network"
    ensures PercentDecode(NameOf(Pairs(r, queryText)[1])) == "query"
    ensures PercentDecode(NameOf(Pairs(r, queryText)[2])) == "offset"
    ensures PercentDecode(NameOf(Pairs(r, queryText)[3])) == "limit"
    ensures ValueOf(Pairs(r, queryText)[0]) == EnvName(r.network)
    ensures ValueOf(Pairs(r, queryText)[1]) == queryText
    ensures ValueOf(Pairs(r, queryText)[2]) == Decimal(r.offset)
    ensures ValueOf(Pairs(r, queryText)[3]) == Decimal(r.limit)
  {
    KeyPairParts(NetworkKey, EnvName(r.network));
    KeyPairParts(QueryKey, queryText);
    KeyPairParts(OffsetKey, Decimal(r.offset));
    KeyPairParts(LimitKey, Decimal(r.limit));
  }

  /** Where each parameter sits among the four pairs. */
  function KeyIndex(k: Key): (i: nat)
    ensures i < 4
  {
    match k
    case NetworkKey => 0
    case QueryKey => 1
    case OffsetKey => 2
    case LimitKey => 3
  }

  /** The endpoint finds each parameter in its own pair: the pairs before it have other names. */
  lemma ReadKey(r: Request, queryText: string, k: Key)
    ensures Lookup(Pairs(r, queryText), KeyName(k)) == Some(PercentDecode(ValueOf(Pairs(r, queryText)[KeyIndex(k)])))
  {
    var pairs := Pairs(r, queryText);
    PairNames(r, queryText);
    if KeyIndex(k) >= 1 {
      ReadSkip(pairs, KeyName(k));
    }
    if KeyIndex(k) >= 2 {
      ReadSkip(pairs[1..], KeyName(k));
    }
    if KeyIndex(k) >= 3 {
      ReadSkip(pairs[1..][1..], KeyName(k));
    }
    assert pairs[KeyIndex(k)..][0] == pairs[KeyIndex(k)];
    assert pairs[1..][1..] == pairs[2..] && pairs[1..][1..][1..] == pairs[3..];
    ReadFirst(pairs[KeyIndex(k)..], KeyName(k));
  }

  /** The environment's name and the decimals carry no `%` or `+`, so decoding leaves them as written. */
  lemma FieldsDecodeAsWritten(r: Request)
    ensures PercentDecode(EnvName(r.network)) == EnvName(r.network)
    ensures PercentDecode(Decimal(r.offset)) == Decimal(r.offset)
    ensures PercentDecode(Decimal(r.limit)) == Decimal(r.limit)
  {
    var name := EnvName(r.network);
    assert forall i :: 0 <= i < |name| ==> name[i] in "mainnetes";
    DecodePlain(name);
    DecodePlain(Decimal(r.offset));
    DecodePlain(Decimal(r.limit));
  }

  /** What the endpoint reads from the four pairs: each field, the query decoded. */
  lemma ReadPairs(r: Request, queryText: string)
    ensures Lookup(Pairs(r, queryText), "network") == Some(EnvName(r.network))
    ensures Lookup(Pairs(r, queryText), "query") == Some(PercentDecode(queryText))
    ensures Lookup(Pairs(r, queryText), "offset") == Some(Decimal(r.offset))
    ensures Lookup(Pairs(r, queryText), "limit") == Some(Decimal(r.limit))
  {
    PairNames(r, queryText);
    ReadKey(r, queryText, NetworkKey);
    ReadKey(r, queryText, QueryKey);
    ReadKey(r, queryText, OffsetKey);
    ReadKey(r, queryText, LimitKey);
    FieldsDecodeAsWritten(r);
  }

  /**
   * With the query encoded, the endpoint reads back every field of the request: the
   * environment's name, the query exactly as typed, and the offset and limit.
   */
  lemma SearchUrlRoundTrip(base: string, r: Request)
    requires '?' !in base && '#' !in base
    ensures ReadParam(SearchUrl(base, r), "network") == Some(EnvName(r.network))
    ensures ReadParam(SearchUrl(base, r), "query") == Some(r.query)
    ensures ReadParam(SearchUrl(base, r), "offset") == Some(Decimal(r.offset))
    ensures ReadParam(SearchUrl(base, r), "limit") == Some(Decimal(r.limit))
    ensures DecimalValue(Decimal(r.offset)) == r.offset && DecimalValue(Decimal(r.limit)) == r.limit
  {
    var e := PercentEncode(r.query);
    PairsSeparable(r, e);
    SplitUrl(base, Pairs(r, e));
    ReadPairs(r, e);
    DecodeEncode(r.query);
    DecimalRoundTrip(r.offset);
    DecimalRoundTrip(r.limit);
  }

  // ---------------------------------------------------------------------------
  // The URL as written.

  /** Text that the query-string reader takes as it stands: no separator, no fragment mark, no
      escape and no character that the URL parser removes. */
  predicate PlainText(s: string) {
    forall i :: 0 <= i < |s| ==> s[i] !in {'&', '#', '%', '+', '\t', '\n', '\r'}
  }

  /** The pairs the endpoint sees for a raw query `a&b`: the `&` starts a pair of its own. */
  function SplitQueryPairs(r: Request, a: string, b: string): seq<string> {
    [Pair("network", EnvName(r.network)), Pair("query", a), b,
     Pair("offset", Decimal(r.offset)), Pair("limit", Decimal(r.limit))]
  }

  lemma RawUrlText(r: Request, a: string, b: string)
    requires r.query == a + "&" + b
    ensures Join(Pairs(r, r.query), '&') == Join(SplitQueryPairs(r, a, b), '&')
  {
    var pairs := SplitQueryPairs(r, a, b);
    var written := Pairs(r, r.query);
    var tail := [Pair("offset", Decimal(r.offset)), Pair("limit", Decimal(r.limit))];
    JoinMerge(Pair("query", a), b, tail, '&');
    assert Pair("query", a) + "&" + b == Pair("query", r.query);
    assert pairs[1..] == [Pair("query", a), b] + tail;
    assert written[1..] == [Pair("query", r.query)] + tail;
  }

  /** Joining two neighbouring parts first changes nothing. */
  lemma JoinMerge(a: string, b: string, rest: seq<string>, sep: char)
    ensures Join([a, b] + rest, sep) == Join([a + [sep] + b] + rest, sep)
  {
    assert ([a, b] + rest)[1..] == [b] + rest;
    assert ([a + [sep] + b] + rest)[1..] == rest;
    if |rest| > 0 {
      assert ([b] + rest)[1..] == rest;
    }
  }

  /**
   * As the component builds it, the URL loses the query: a query `a&b` reaches the endpoint
   * as the query `a`, with `b` read as a parameter of its own.
   */
  lemma RawSearchUrlTruncatesQuery(base: string, r: Request, a: string, b: string)
    requires '?' !in base && '#' !in base
    requires r.query == a + "&" + b && PlainText(a) && PlainText(b)
    ensures ReadParam(RawSearchUrl(base, r), "query") == Some(a)
    ensures ReadParam(RawSearchUrl(base, r), "query") != Some(r.query)
  {
    var pairs := SplitQueryPairs(r, a, b);
    RawUrlText(r, a, b);
    PairsSeparable(r, a);
    assert Separable(pairs) by {
      var plain := Pairs(r, a);
      assert pairs[0] == plain[0] && pairs[1] == plain[1] && pairs[3] == plain[2] && pairs[4] == plain[3];
    }
    SplitUrl(base, pairs);
    PairNames(r, a);
    DecodePlain(a);
    ReadSkip(pairs, "query");
    ReadFirst(pairs[1..], "query");
    assert |r.query| > |a|;
  }

  /** The free-text query `x&y`, searched on either environment, reaches the endpoint as `x`. */
  lemma AmpersandQueryReachesEndpointAsX(base: string, e: Env)
    requires '?' !in base && '#' !in base
    ensures ReadParam(RawSearchUrl(base, Request(e, "x&y", InitialOffset, InitialLimit)), "query") == Some("x")
  {
    assert "x&y" == "x" + "&" + "y";
    RawSearchUrlTruncatesQuery(base, Request(e, "x&y", InitialOffset, InitialLimit), "x", "y");
  }
}
