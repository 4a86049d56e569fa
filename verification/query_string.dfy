/**
 * How the search endpoint reads the query string of a request URL: every ASCII tab, line feed
 * and carriage return removed from the URL, then the text after the first `?` that comes
 * before the fragment (`#`), split on `&` into `name=value` pairs, names and values
 * percent-decoded (`+` read as a space), and the first pair with the wanted name wins. This
 * follows the WHATWG URL standard's URL parser, its application/x-www-form-urlencoded parser
 * and `URLSearchParams.get` for URLs like the ones built here. Of the URL parser, only the
 * removal of tabs and newlines and the split into query and fragment are modelled. Each `%XY`
 * decodes to the one character with code XY, where the standard collects the bytes and
 * decodes them as UTF-8; the two agree on codes below 0x80, the only ones `PercentEncode`
 * writes. Percent-encoding is the inverse the request URL needs to carry an arbitrary query.
 */
module QueryString {
  import opened Wrappers
  import opened Patterns

  function Join(parts: seq<string>, sep: char): string
    decreases |parts|
  {
    if |parts| == 0 then ""
    else if |parts| == 1 then parts[0]
    else parts[0] + [sep] + Join(parts[1..], sep)
  }

  function Split(s: string, sep: char): (parts: seq<string>)
    ensures |parts| >= 1
    ensures forall i :: 0 <= i < |parts| ==> sep !in parts[i]
    decreases |s|
  {
    match IndexOfFrom(s, sep, 0)
    case None => [s]
    case Some(k) => [s[..k]] + Split(s[k + 1..], sep)
  }

  /** Splitting undoes joining whenever no part holds the separator. */
  lemma {:induction false} SplitJoin(parts: seq<string>, sep: char)
    requires |parts| >= 1
    requires forall i :: 0 <= i < |parts| ==> sep !in parts[i]
    ensures Split(Join(parts, sep), sep) == parts
    decreases |parts|
  {
    if |parts| == 1 {
      assert forall j :: 0 <= j < |parts[0]| ==> parts[0][j] in parts[0];
    } else {
      var s := Join(parts, sep);
      var head := parts[0];
      var rest := Join(parts[1..], sep);
      assert s == head + [sep] + rest;
      assert forall j :: 0 <= j < |head| ==> s[j] == head[j] && head[j] in head;
      assert s[|head|] == sep;
      var k := IndexOfFrom(s, sep, 0).value;
      assert k == |head|;
      assert s[..k] == head && s[k + 1..] == rest;
      SplitJoin(parts[1..], sep);
    }
  }

  /** Joining undoes splitting, for every string. */
  lemma {:induction false} JoinSplit(s: string, sep: char)
    ensures Join(Split(s, sep), sep) == s
    decreases |s|
  {
    match IndexOfFrom(s, sep, 0)
    case None =>
    case Some(k) =>
      var tail := Split(s[k + 1..], sep);
      assert Split(s, sep) == [s[..k]] + tail;
      assert ([s[..k]] + tail)[1..] == tail;
      JoinSplit(s[k + 1..], sep);
      assert Join(Split(s, sep), sep) == s[..k] + [sep] + s[k + 1..];
      assert s == s[..k] + [sep] + s[k + 1..];
  }

  predicate IsTabOrNewline(c: char) {
    c == '\t' || c == '\n' || c == '\r'
  }

  /** The URL parser's first step: every ASCII tab, line feed and carriage return is removed. */
  function StripTabsAndNewlines(s: string): (r: string)
    ensures forall i :: 0 <= i < |r| ==> !IsTabOrNewline(r[i]) && r[i] in s
    decreases |s|
  {
    if |s| == 0 then ""
    else if IsTabOrNewline(s[0]) then StripTabsAndNewlines(s[1..])
    else [s[0]] + StripTabsAndNewlines(s[1..])
  }

  lemma {:induction false} StripAppend(a: string, b: string)
    ensures StripTabsAndNewlines(a + b) == StripTabsAndNewlines(a) + StripTabsAndNewlines(b)
    decreases |a|
  {
    if |a| == 0 {
      assert a + b == b;
    } else {
      assert (a + b)[0] == a[0] && (a + b)[1..] == a[1..] + b;
      StripAppend(a[1..], b);
    }
  }

  /** Text without tabs and newlines passes through unchanged. */
  lemma {:induction false} StripClean(s: string)
    requires forall i :: 0 <= i < |s| ==> !IsTabOrNewline(s[i])
    ensures StripTabsAndNewlines(s) == s
    decreases |s|
  {
    if |s| > 0 {
      StripClean(s[1..]);
    }
  }

  /** Any other character present before the removal is still present after it. */
  lemma {:induction false} StripKeeps(s: string, c: char)
    requires c in s && !IsTabOrNewline(c)
    ensures c in StripTabsAndNewlines(s)
    decreases |s|
  {
    if s[0] == c {
      assert StripTabsAndNewlines(s)[0] == c;
    } else {
      assert c in s[1..];
      StripKeeps(s[1..], c);
      var r := StripTabsAndNewlines(s[1..]);
      var k :| 0 <= k < |r| && r[k] == c;
      if IsTabOrNewline(s[0]) {
        assert StripTabsAndNewlines(s)[k] == c;
      } else {
        assert StripTabsAndNewlines(s)[k + 1] == c;
      }
    }
  }

  /** A URL without its fragment: everything before the first `#`. */
  function BeforeFragment(url: string): (u: string)
    ensures '#' !in u
    ensures |u| <= |url| && u == url[..|u|]
    ensures '#' !in url ==> u == url
  {
    match IndexOfFrom(url, '#', 0)
    case None => url
    case Some(h) => url[..h]
  }

  /** The query of a URL free of tabs and newlines: what follows the first `?` that comes
      before the fragment; a URL whose first `#` comes before any `?` has no query. */
  function QueryOfStripped(url: string): string {
    var u := BeforeFragment(url);
    match IndexOfFrom(u, '?', 0)
    case None => ""
    case Some(q) => u[q + 1..]
  }

  /** The query of a URL, read after the removal of tabs and newlines. */
  function QueryOf(url: string): string {
    QueryOfStripped(StripTabsAndNewlines(url))
  }

  function Pair(name: string, value: string): string {
    name + "=" + value
  }

  /** A `name=value` pair is cut at its first `=`; a pair without one has an empty value. */
  function NameOf(pair: string): string {
    match IndexOfFrom(pair, '=', 0)
    case None => pair
    case Some(k) => pair[..k]
  }

  function ValueOf(pair: string): string {
    match IndexOfFrom(pair, '=', 0)
    case None => ""
    case Some(k) => pair[k + 1..]
  }

  function HexValue(c: char): (v: nat)
    requires IsHexDigit(c)
    ensures v < 16
  {
    if '0' <= c <= '9' then c as int - '0' as int
    else if 'a' <= c <= 'f' then c as int - 'a' as int + 10
    else c as int - 'A' as int + 10
  }

  function PercentDecode(s: string): string
    decreases |s|
  {
    if |s| == 0 then ""
    else if s[0] == '%' && |s| >= 3 && IsHexDigit(s[1]) && IsHexDigit(s[2]) then
      [(HexValue(s[1]) * 16 + HexValue(s[2])) as char] + PercentDecode(s[3..])
    else if s[0] == '+' then [' '] + PercentDecode(s[1..])
    else [s[0]] + PercentDecode(s[1..])
  }

  function Lookup(pairs: seq<string>, key: string): Option<string>
    decreases |pairs|
  {
    if |pairs| == 0 then None
    else if PercentDecode(NameOf(pairs[0])) == key then Some(PercentDecode(ValueOf(pairs[0])))
    else Lookup(pairs[1..], key)
  }

  /** What the endpoint reads as parameter `key` of `url`. */
  function ReadParam(url: string, key: string): Option<string> {
    Lookup(Split(QueryOf(url), '&'), key)
  }

  // ---------------------------------------------------------------------------
  // Percent-encoding, as `encodeURIComponent` does it for ASCII.

  /** The characters `encodeURIComponent` leaves alone. */
  predicate IsUnreserved(c: char) {
    ('0' <= c <= '9') || ('a' <= c <= 'z') || ('A' <= c <= 'Z')
    || c in {'-', '_', '.', '!', '~', '*', '\'', '(', ')'}
  }

  function HexDigitChar(d: nat): (c: char)
    requires d < 16
    ensures IsHexDigit(c) && HexValue(c) == d
  {
    if d < 10 then ('0' as int + d) as char else ('A' as int + d - 10) as char
  }

  /**
   * One character of the encoded query. An ASCII character outside the unreserved set becomes
   * `%` and two hex digits. Other characters are kept: the URL parser of `fetch` encodes them
   * as UTF-8 and the endpoint decodes them back, which this model does not spell out.
   */
  function EncodeChar(c: char): (e: string)
    ensures e == [c] || (|e| == 3 && e[0] == '%')
    ensures forall i :: 0 <= i < |e| ==> e[i] !in {'&', '#', '+', '=', '\t', '\n', '\r'}
  {
    if IsUnreserved(c) || c as int >= 128 then [c]
    else "%" + [HexDigitChar(c as int / 16), HexDigitChar(c as int % 16)]
  }

  function PercentEncode(s: string): (e: string)
    ensures forall i :: 0 <= i < |e| ==> e[i] !in {'&', '#', '+', '=', '\t', '\n', '\r'}
    decreases |s|
  {
    if |s| == 0 then "" else EncodeChar(s[0]) + PercentEncode(s[1..])
  }

  lemma DecodeEncodedChar(c: char, rest: string)
    ensures PercentDecode(EncodeChar(c) + rest) == [c] + PercentDecode(rest)
  {
    var e := EncodeChar(c) + rest;
    if IsUnreserved(c) || c as int >= 128 {
      assert e[1..] == rest;
    } else {
      assert e[3..] == rest;
      assert (HexValue(e[1]) * 16 + HexValue(e[2])) as char == c;
    }
  }

  /** Decoding undoes encoding: the endpoint reads back exactly the encoded text. */
  lemma {:induction false} DecodeEncode(s: string)
    ensures PercentDecode(PercentEncode(s)) == s
    decreases |s|
  {
    if |s| > 0 {
      DecodeEncodedChar(s[0], PercentEncode(s[1..]));
      DecodeEncode(s[1..]);
    }
  }

  /** Text with no `%` and no `+` decodes to itself. */
  lemma {:induction false} DecodePlain(s: string)
    requires forall i :: 0 <= i < |s| ==> s[i] != '%' && s[i] != '+'
    ensures PercentDecode(s) == s
    decreases |s|
  {
    if |s| > 0 {
      DecodePlain(s[1..]);
    }
  }

  /** A name free of `=`, `%` and `+` reads back from its pair as written, and so does the value. */
  lemma PairParts(name: string, value: string)
    requires forall i :: 0 <= i < |name| ==> name[i] !in {'=', '%', '+'}
    ensures PercentDecode(NameOf(Pair(name, value))) == name
    ensures ValueOf(Pair(name, value)) == value
  {
    var p := Pair(name, value);
    assert forall j :: 0 <= j < |name| ==> p[j] == name[j] && p[j] != '=';
    assert p[|name|] == '=';
    assert p[..|name|] == name && p[|name| + 1..] == value;
    DecodePlain(name);
  }

  /** Before the removal step: the query of `prefix + "?" + query` is `query` when neither part
      holds a `#` and `prefix` holds no `?`. */
  lemma QueryOfJoined(prefix: string, query: string)
    requires '?' !in prefix && '#' !in prefix && '#' !in query
    ensures QueryOfStripped(prefix + "?" + query) == query
  {
    var url := prefix + "?" + query;
    assert '#' !in url by {
      assert forall j :: 0 <= j < |url| ==> url[j] == '?' || url[j] in prefix || url[j] in query by {
        forall j | 0 <= j < |url| ensures url[j] == '?' || url[j] in prefix || url[j] in query {
          if j < |prefix| {
            assert url[j] == prefix[j];
          } else if j > |prefix| {
            assert url[j] == query[j - |prefix| - 1];
          }
        }
      }
    }
    assert forall j :: 0 <= j < |prefix| ==> url[j] == prefix[j] && prefix[j] in prefix;
    assert url[|prefix|] == '?';
    assert url[|prefix| + 1..] == query;
  }

  lemma StripAroundMark(prefix: string, query: string)
    ensures StripTabsAndNewlines(prefix + "?" + query)
         == StripTabsAndNewlines(prefix) + "?" + StripTabsAndNewlines(query)
  {
    StripAppend(prefix + "?", query);
    StripAppend(prefix, "?");
    assert StripTabsAndNewlines("?") == "?";
  }

  /** The query of `prefix + "?" + query` is `query` with its tabs and newlines removed, when
      neither part holds a `#` and `prefix` holds no `?`. */
  lemma QueryOfUrl(prefix: string, query: string)
    requires '?' !in prefix && '#' !in prefix && '#' !in query
    ensures QueryOf(prefix + "?" + query) == StripTabsAndNewlines(query)
  {
    StripAroundMark(prefix, query);
    QueryOfJoined(StripTabsAndNewlines(prefix), StripTabsAndNewlines(query));
  }

  /** A `#` before the first `?` starts the fragment, which takes the `?` with it: no query. */
  lemma FragmentHidesQuery(prefix: string, rest: string)
    requires '?' !in prefix && '#' in prefix
    ensures QueryOf(prefix + "?" + rest) == ""
  {
    StripAroundMark(prefix, rest);
    StripKeeps(prefix, '#');
    var p := StripTabsAndNewlines(prefix);
    var url := p + "?" + StripTabsAndNewlines(rest);
    var u := BeforeFragment(url);
    var h :| 0 <= h < |p| && p[h] == '#';
    assert url[h] == '#';
    assert forall j :: 0 <= j < |u| ==> u[j] in u && u[j] == url[j];
    assert |u| <= h;
    assert forall j :: 0 <= j < |u| ==> u[j] == p[j] && p[j] in p && p[j] in prefix;
  }
}
