/**
 * The two regular expressions the search box tests a query against, written out as
 * predicates over characters:
 *
 *   account address   /^(?:0x)?[0-9a-fA-F]{8,16}$/
 *   contract path     /^(?:A\.)?[0-9a-fA-F]{8,16}\.[\w-]+$/
 *
 * Both are JavaScript regular expressions without flags: `$` anchors at the end of the
 * input, and `\w` is exactly `[A-Za-z0-9_]`.
 *
 * Each pattern is given twice: as a ghost "language" that mirrors the regular expression's
 * structure (an optional prefix, then a run of hex digits, ...), and as an executable
 * matcher that decides it deterministically. The lemmas prove the two agree on every string.
 */
module Patterns {
  import opened Wrappers

  predicate IsHexDigit(c: char) {
    ('0' <= c <= '9') || ('a' <= c <= 'f') || ('A' <= c <= 'F')
  }

  /** `[\w-]` of a JavaScript regular expression without the `u` flag. */
  predicate IsWordOrHyphen(c: char) {
    ('0' <= c <= '9') || ('a' <= c <= 'z') || ('A' <= c <= 'Z') || c == '_' || c == '-'
  }

  predicate AllHex(s: string) {
    forall i :: 0 <= i < |s| ==> IsHexDigit(s[i])
  }

  /** `[0-9a-fA-F]{8,16}` matched in full. */
  predicate HexRun(s: string) {
    8 <= |s| <= 16 && AllHex(s)
  }

  /** `[\w-]+` matched in full. */
  predicate WordRun(s: string) {
    0 < |s| && forall i :: 0 <= i < |s| ==> IsWordOrHyphen(s[i])
  }

  const AccountPrefix: string := "0x"
  const ContractPrefix: string := "A."

  predicate StartsWith(s: string, p: string) {
    |p| <= |s| && s[..|p|] == p
  }

  // ---------------------------------------------------------------------------
  // Reference languages: what each regular expression matches in full.

  ghost predicate AccountLanguage(s: string) {
    HexRun(s) || exists h :: HexRun(h) && s == AccountPrefix + h
  }

  /** `[0-9a-fA-F]{8,16}\.[\w-]+`: hex digits, one dot, word characters. */
  ghost predicate ContractBodyLanguage(t: string) {
    exists h, w :: HexRun(h) && WordRun(w) && t == h + "." + w
  }

  ghost predicate ContractLanguage(s: string) {
    ContractBodyLanguage(s) || exists t :: ContractBodyLanguage(t) && s == ContractPrefix + t
  }

  // ---------------------------------------------------------------------------
  // Executable matchers.

  /** The first position at or after `i` holding `c`, if any. */
  function IndexOfFrom(s: string, c: char, i: nat): (r: Option<nat>)
    requires i <= |s|
    ensures r.Some? ==> i <= r.value < |s| && s[r.value] == c
    ensures r.Some? ==> forall j :: i <= j < r.value ==> s[j] != c
    ensures r.None? ==> forall j :: i <= j < |s| ==> s[j] != c
    decreases |s| - i
  {
    if i == |s| then None
    else if s[i] == c then Some(i)
    else IndexOfFrom(s, c, i + 1)
  }

  predicate IsAccountAddress(s: string) {
    HexRun(s) || (StartsWith(s, AccountPrefix) && HexRun(s[|AccountPrefix|..]))
  }

  /** Hex digits cannot contain a dot, so the run of hex digits must end at the first dot. */
  predicate IsContractBody(t: string) {
    match IndexOfFrom(t, '.', 0)
    case None => false
    case Some(k) => HexRun(t[..k]) && WordRun(t[k + 1..])
  }

  predicate IsContractPath(s: string) {
    IsContractBody(s) || (StartsWith(s, ContractPrefix) && IsContractBody(s[|ContractPrefix|..]))
  }

  // ---------------------------------------------------------------------------
  // The matchers decide the languages.

  lemma AccountMatcherCorrect(s: string)
    ensures IsAccountAddress(s) <==> AccountLanguage(s)
  {
    if StartsWith(s, AccountPrefix) && HexRun(s[2..]) {
      assert s == AccountPrefix + s[2..];
    }
    if AccountLanguage(s) && !HexRun(s) {
      var h :| HexRun(h) && s == AccountPrefix + h;
      assert s[..2] == AccountPrefix && s[2..] == h;
    }
  }

  lemma ContractBodyMatcherCorrect(t: string)
    ensures IsContractBody(t) <==> ContractBodyLanguage(t)
  {
    if IsContractBody(t) {
      var k := IndexOfFrom(t, '.', 0).value;
      assert t == t[..k] + "." + t[k + 1..];
    }
    if ContractBodyLanguage(t) {
      var h, w :| HexRun(h) && WordRun(w) && t == h + "." + w;
      assert t[|h|] == '.';
      assert forall j :: 0 <= j < |h| ==> t[j] == h[j] && t[j] != '.';
      var k := IndexOfFrom(t, '.', 0).value;
      assert k == |h|;
      assert t[..|h|] == h && t[|h| + 1..] == w;
    }
  }

  lemma ContractMatcherCorrect(s: string)
    ensures IsContractPath(s) <==> ContractLanguage(s)
  {
    ContractBodyMatcherCorrect(s);
    if |s| >= 2 {
      ContractBodyMatcherCorrect(s[2..]);
    }
    if StartsWith(s, ContractPrefix) && IsContractBody(s[2..]) {
      assert s == ContractPrefix + s[2..];
    }
    if !ContractBodyLanguage(s) && ContractLanguage(s) {
      var t :| ContractBodyLanguage(t) && s == ContractPrefix + t;
      assert s[..2] == ContractPrefix && s[2..] == t;
    }
  }

  // ---------------------------------------------------------------------------
  // Shape of the two languages.

  /** Account addresses have no dot and between 8 and 18 characters, all ASCII. */
  lemma AccountShape(s: string)
    requires AccountLanguage(s)
    ensures 8 <= |s| <= 18
    ensures forall i :: 0 <= i < |s| ==> s[i] != '.' && s[i] as int < 128
  {
    if !HexRun(s) {
      var h :| HexRun(h) && s == AccountPrefix + h;
      assert forall i :: 2 <= i < |s| ==> s[i] == h[i - 2];
    }
  }

  lemma ContractBodyShape(t: string)
    requires ContractBodyLanguage(t)
    ensures 10 <= |t|
    ensures AllHex(t[..8])
    ensures exists i :: 0 <= i < |t| && t[i] == '.'
    ensures forall i :: 0 <= i < |t| ==> t[i] as int < 128
  {
    var h, w :| HexRun(h) && WordRun(w) && t == h + "." + w;
    assert t[|h|] == '.';
  }

  /** Contract paths contain a dot and at least 10 characters, all ASCII, and open with
      either eight hex digits or the `A.` prefix. */
  lemma ContractShape(s: string)
    requires ContractLanguage(s)
    ensures 10 <= |s|
    ensures AllHex(s[..8]) || StartsWith(s, ContractPrefix)
    ensures exists i :: 0 <= i < |s| && s[i] == '.'
    ensures forall i :: 0 <= i < |s| ==> s[i] as int < 128
  {
    if ContractBodyLanguage(s) {
      ContractBodyShape(s);
    } else {
      var t :| ContractBodyLanguage(t) && s == ContractPrefix + t;
      ContractBodyShape(t);
      var i :| 0 <= i < |t| && t[i] == '.';
      assert s[i + 2] == '.';
    }
  }

  /** No query is both an account address and a contract path. */
  lemma PatternsDisjoint(s: string)
    ensures !(AccountLanguage(s) && ContractLanguage(s))
  {
    if AccountLanguage(s) && ContractLanguage(s) {
      AccountShape(s);
      ContractShape(s);
      assert false;
    }
  }
}
