/**
 * What the search box does each time its query changes (the effect keyed on the query in
 * components/Search.tsx): nothing for short queries, a route change for an account address
 * or a contract path, and otherwise a search.
 */
module QueryDispatch {
  import opened Patterns

  /** JavaScript's `length`: a character outside the Basic Multilingual Plane is two UTF-16 code units. */
  function Utf16Length(s: string): (n: nat)
    ensures |s| <= n <= 2 * |s|
  {
    if s == [] then 0
    else (if s[0] as int < 0x1_0000 then 1 else 2) + Utf16Length(s[1..])
  }

  /** On ASCII text JavaScript's length is the number of characters. */
  lemma {:induction false} AsciiUtf16Length(s: string)
    requires forall i :: 0 <= i < |s| ==> s[i] as int < 128
    ensures Utf16Length(s) == |s|
  {
    if s != [] {
      assert forall i :: 0 <= i < |s[1..]| ==> s[1..][i] == s[i + 1];
      AsciiUtf16Length(s[1..]);
    }
  }

  /** Both patterns need at least eight characters, so the length guard never hides a navigation. */
  lemma NavigationQueriesAreLong(q: string)
    ensures AccountLanguage(q) || ContractLanguage(q) ==> 8 <= |q| == Utf16Length(q)
  {
    if AccountLanguage(q) {
      AccountShape(q);
      AsciiUtf16Length(q);
    } else if ContractLanguage(q) {
      ContractShape(q);
      AsciiUtf16Length(q);
    }
  }

  datatype QueryKind = TooShort | AccountAddress | ContractPath | FreeText

  /** The `switch(true)`: the length guard, then the account test, then the contract test. */
  function Classify(q: string): (k: QueryKind)
    ensures k == TooShort <==> Utf16Length(q) <= 2
    ensures k == AccountAddress <==> AccountLanguage(q)
    ensures k == ContractPath <==> ContractLanguage(q)
    ensures k == FreeText <==> 2 < Utf16Length(q) && !AccountLanguage(q) && !ContractLanguage(q)
  {
    AccountMatcherCorrect(q);
    ContractMatcherCorrect(q);
    PatternsDisjoint(q);
    NavigationQueriesAreLong(q);
    if Utf16Length(q) <= 2 then TooShort
    else if IsAccountAddress(q) then AccountAddress
    else if IsContractPath(q) then ContractPath
    else FreeText
  }

  /** The one thing the effect does: nothing, push a route, or hand the query to the debounced search. */
  datatype Effect = Idle | Navigate(path: string) | Search(query: string)

  /** The effect, and the query the box holds afterwards. */
  datatype Reaction = Reaction(effect: Effect, query: string)

  const AccountRoutePrefix: string := "/account/"

  function AccountRoute(address: string): string {
    AccountRoutePrefix + address
  }

  function ContractRoute(path: string): string {
    "/" + path
  }

  function OnQueryChange(q: string): (r: Reaction)
    ensures Utf16Length(q) <= 2 ==> r == Reaction(Idle, q)
    ensures AccountLanguage(q) ==> r == Reaction(Navigate(AccountRoute(q)), "")
    ensures ContractLanguage(q) ==> r == Reaction(Navigate(ContractRoute(q)), "")
    ensures 2 < Utf16Length(q) && !AccountLanguage(q) && !ContractLanguage(q) ==> r == Reaction(Search(q), q)
    ensures r.effect.Navigate? ==> 8 <= |q|
  {
    match Classify(q)
    case TooShort => Reaction(Idle, q)
    case AccountAddress => NavigationQueriesAreLong(q); Reaction(Navigate(AccountRoute(q)), "")
    case ContractPath => NavigationQueriesAreLong(q); Reaction(Navigate(ContractRoute(q)), "")
    case FreeText => Reaction(Search(q), q)
  }

  /**
   * Clearing the query re-runs the effect on the empty query, which does nothing; a search
   * leaves the query as it was, so the effect is not re-run. Either way one change of the
   * query causes at most one navigation or search.
   */
  lemma ReactionSettles(q: string)
    ensures OnQueryChange(q).effect.Navigate? ==> OnQueryChange(OnQueryChange(q).query) == Reaction(Idle, "")
    ensures !OnQueryChange(q).effect.Navigate? ==> OnQueryChange(q).query == q
  {
  }

  /** A route pushed by the effect names the query that caused it: account routes and
      contract routes never collide, and neither loses characters. */
  lemma NavigationDeterminesQuery(q1: string, q2: string)
    requires OnQueryChange(q1).effect.Navigate?
    requires OnQueryChange(q1).effect == OnQueryChange(q2).effect
    ensures q1 == q2
  {
    var k1, k2 := Classify(q1), Classify(q2);
    if k1 == AccountAddress && k2 == ContractPath {
      AccountRouteIsNotContractRoute(q1, q2);
    } else if k1 == ContractPath && k2 == AccountAddress {
      AccountRouteIsNotContractRoute(q2, q1);
    } else if k1 == AccountAddress {
      assert AccountRoute(q1)[9..] == q1 && AccountRoute(q2)[9..] == q2;
    } else {
      assert ContractRoute(q1)[1..] == q1 && ContractRoute(q2)[1..] == q2;
    }
  }

  lemma AccountRouteIsNotContractRoute(a: string, c: string)
    requires ContractLanguage(c)
    ensures AccountRoute(a) != ContractRoute(c)
  {
    ContractShape(c);
    assert ContractRoute(c)[1] == c[0] && ContractRoute(c)[4] == c[3];
    assert AccountRoute(a)[1] == 'a' && AccountRoute(a)[4] == 'o';
    assert IsHexDigit(c[..8][3]) || c[..2] == ContractPrefix;
  }
}
