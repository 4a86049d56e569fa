/**
 * The network preference of the user menu (components/UserNav.tsx): the selected network,
 * kept in step with an optional `network` URL parameter and with the network the wallet
 * client is configured for; and the account links of the menu.
 */
module UserNav {
  import opened Wrappers
  import opened QueryDispatch

  const DefaultNetwork: string := "mainnet"

  /**
   * The selection on mount. A connected address (a non-empty string) takes the network the
   * address belongs to, which an external hook works out and which is a parameter here;
   * without one the selection is mainnet.
   */
  function InitialSelection(addr: Option<string>, networkOfAddress: string): (n: string)
    ensures addr.None? || addr.value == "" ==> n == DefaultNetwork
    ensures addr.Some? && addr.value != "" ==> n == networkOfAddress
  {
    match addr
    case Some(a) => if a != "" then networkOfAddress else DefaultNetwork
    case None => DefaultNetwork
  }

  /**
   * The selected network, and the network last handed to the wallet client's `config` (the
   * configuration object built from it is not modelled, only which network it is for);
   * `None` before the first configuration.
   */
  datatype Prefs = Prefs(selected: string, configured: Option<string>)

  function Mount(addr: Option<string>, networkOfAddress: string): Prefs {
    Prefs(InitialSelection(addr, networkOfAddress), None)
  }

  /**
   * The first render: the effect runs once on the mounted state. A non-empty parameter is
   * selected; otherwise the initial selection stays. Either way the client is configured for
   * the selection, so with no address and no parameter the user starts on mainnet.
   */
  lemma FirstRender(addr: Option<string>, networkOfAddress: string, param: Option<string>)
    ensures var p := Reconcile(Mount(addr, networkOfAddress), param);
      && p.configured == Some(p.selected)
      && (param.Some? && param.value != "" ==> p.selected == param.value)
      && (param.None? || param.value == "" ==> p.selected == InitialSelection(addr, networkOfAddress))
    ensures addr.None? && param.None? ==>
      Reconcile(Mount(addr, networkOfAddress), param) == Prefs(DefaultNetwork, Some(DefaultNetwork))
  {
    var m := Mount(addr, networkOfAddress);
    if param.Some? && param.value != "" {
      ReconcileFollowsParam(m, param.value);
    } else {
      ReconcileKeepsSelection(m, param);
    }
  }

  /** Menu choice (and the helper the effect uses): configure the client, then select. */
  function ChangeNetwork(p: Prefs, desired: string): (p': Prefs)
    ensures p'.selected == desired
    ensures p'.configured == Some(p'.selected)
  {
    Prefs(desired, Some(desired))
  }

  /** The parameter is adopted when it is present, non-empty and differs from the selection. */
  predicate Adopts(p: Prefs, param: Option<string>) {
    param.Some? && param.value != "" && param.value != p.selected
  }

  /** The effect run after every render. */
  function Reconcile(p: Prefs, param: Option<string>): (p': Prefs)
    ensures p'.configured == Some(p'.selected)
    ensures p'.selected != p.selected <==> Adopts(p, param)
    ensures Adopts(p, param) ==> p'.selected == param.value
  {
    if Adopts(p, param) then ChangeNetwork(p, param.value) else ChangeNetwork(p, p.selected)
  }

  /** A non-empty parameter always wins: after reconciling, the selection is the parameter. */
  lemma ReconcileFollowsParam(p: Prefs, param: string)
    requires param != ""
    ensures Reconcile(p, Some(param)) == Prefs(param, Some(param))
  {
  }

  /** Without a usable parameter the selection stays and is (re)configured. */
  lemma ReconcileKeepsSelection(p: Prefs, param: Option<string>)
    requires param.None? || param.value == "" || param.value == p.selected
    ensures Reconcile(p, param) == Prefs(p.selected, Some(p.selected))
  {
  }

  lemma ReconcileIdempotent(p: Prefs, param: Option<string>)
    ensures Reconcile(Reconcile(p, param), param) == Reconcile(p, param)
  {
  }

  /** The effect re-runs on every render; `n` further renders with the same parameter change nothing. */
  function Rerender(p: Prefs, param: Option<string>, n: nat): Prefs
    decreases n
  {
    if n == 0 then p else Rerender(Reconcile(p, param), param, n - 1)
  }

  lemma {:induction false} RerenderStable(p: Prefs, param: Option<string>, n: nat)
    ensures Rerender(Reconcile(p, param), param, n) == Reconcile(p, param)
    decreases n
  {
    if n > 0 {
      ReconcileIdempotent(p, param);
      RerenderStable(p, param, n - 1);
    }
  }

  /** A menu choice does not survive the next render while a different non-empty `network`
      parameter is in the URL: the effect switches straight back to the parameter. */
  lemma MenuChoiceYieldsToParam(p: Prefs, choice: string, param: string)
    requires param != ""
    ensures Reconcile(ChangeNetwork(p, choice), Some(param)).selected == param
  {
  }

  /** Without a parameter a menu choice stays selected and configured across renders. */
  lemma MenuChoiceStandsWithoutParam(p: Prefs, choice: string, n: nat)
    ensures Rerender(ChangeNetwork(p, choice), None, n) == Prefs(choice, Some(choice))
  {
    RerenderStable(ChangeNetwork(p, choice), None, n);
  }

  // ---------------------------------------------------------------------------
  // Account links of the menu.

  /** "Your account", "Manage contracts", "Deploy a new contract". */
  function AccountLinks(addr: string): seq<string> {
    [AccountRoute(addr) + "/", AccountRoute(addr) + "/contracts", AccountRoute(addr) + "/contracts/deploy"]
  }

  /** The address segment of an `/account/<address>/…` path: up to the next `/`. */
  function AccountOfPath(path: string): Option<string> {
    if |path| < |AccountRoutePrefix| || path[..|AccountRoutePrefix|] != AccountRoutePrefix then None
    else
      var rest := path[|AccountRoutePrefix|..];
      match Patterns.IndexOfFrom(rest, '/', 0)
      case None => Some(rest)
      case Some(k) => Some(rest[..k])
  }

  /** Every menu link leads to a page of the connected account, as does the search box's account route. */
  lemma AccountLinksNameAccount(addr: string)
    requires '/' !in addr
    ensures |AccountLinks(addr)| == 3
    ensures forall i :: 0 <= i < 3 ==> AccountOfPath(AccountLinks(addr)[i]) == Some(addr)
    ensures AccountOfPath(AccountRoute(addr)) == Some(addr)
  {
    var links := AccountLinks(addr);
    forall i | 0 <= i < 3
      ensures AccountOfPath(links[i]) == Some(addr)
    {
      var suffix := if i == 0 then "/" else if i == 1 then "/contracts" else "/contracts/deploy";
      assert links[i] == AccountRoutePrefix + (addr + suffix);
      AccountSegment(addr, suffix);
    }
    assert AccountRoute(addr) == AccountRoutePrefix + (addr + "");
    AccountSegment(addr, "");
  }

  /** The three menu links are different pages. */
  lemma AccountLinksDistinct(addr: string)
    ensures forall i, j :: 0 <= i < j < |AccountLinks(addr)| ==> AccountLinks(addr)[i] != AccountLinks(addr)[j]
  {
    var links := AccountLinks(addr);
    assert |links[0]| < |links[1]| < |links[2]|;
  }

  lemma AccountSegment(addr: string, suffix: string)
    requires '/' !in addr
    requires suffix == "" || suffix[0] == '/'
    ensures AccountOfPath(AccountRoutePrefix + (addr + suffix)) == Some(addr)
  {
    var path := AccountRoutePrefix + (addr + suffix);
    assert path[..|AccountRoutePrefix|] == AccountRoutePrefix;
    var rest := path[|AccountRoutePrefix|..];
    assert rest == addr + suffix;
    assert forall j :: 0 <= j < |addr| ==> rest[j] == addr[j] && addr[j] in addr;
    if suffix != "" {
      assert rest[|addr|] == '/';
      assert rest[..|addr|] == addr;
    } else {
      assert rest == addr;
    }
  }

  /** The "Manage contracts" shortcut: `Object.keys(account?.contractNames || {}).length`. */
  function ContractCount<T>(contractNames: Option<map<string, T>>): (n: nat)
    ensures contractNames.None? ==> n == 0
    ensures contractNames.Some? ==> n == |contractNames.value.Keys|
  {
    match contractNames
    case None => 0
    case Some(m) => |m.Keys|
  }

  /** Deploying a contract under a new name raises the shortcut by one. */
  lemma ContractCountGrows<T>(m: map<string, T>, name: string, code: T)
    requires name !in m
    ensures ContractCount(Some(m[name := code])) == ContractCount(Some(m)) + 1
  {
    assert m[name := code].Keys == m.Keys + {name};
  }
}
