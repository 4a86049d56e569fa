/**
 * The result state of the search component: for each environment, the last response
 * received and a loading flag; the counts derived from the two responses; and what each
 * tab's panel shows.
 */
module SearchResults {
  import opened Wrappers
  import opened SearchRequests

  /** A row of the results table; its fields are passed through from the endpoint untouched. */
  datatype ContractSummary = ContractSummary(address: string, name: string)

  /** The `data` of a response; either field may be missing. */
  datatype SearchData = SearchData(contracts: Option<seq<ContractSummary>>, totalCount: Option<int>)

  /** A response body; the state starts out as the empty object, which has no `data`. */
  datatype SearchResponse = SearchResponse(data: Option<SearchData>)

  const EmptyResponse: SearchResponse := SearchResponse(None)

  datatype EnvResults = EnvResults(response: SearchResponse, loading: bool)

  datatype Results = Results(mainnet: EnvResults, testnet: EnvResults)

  function Get(s: Results, e: Env): EnvResults {
    match e
    case Mainnet => s.mainnet
    case Testnet => s.testnet
  }

  function Set(s: Results, e: Env, r: EnvResults): (s': Results)
    ensures Get(s', e) == r
    ensures Get(s', Other(e)) == Get(s, Other(e))
  {
    match e
    case Mainnet => s.(mainnet := r)
    case Testnet => s.(testnet := r)
  }

  /** On mount: no response yet in either environment, nothing loading. */
  const Initial: Results := Results(EnvResults(EmptyResponse, false), EnvResults(EmptyResponse, false))

  /** A search starts: both environments are loading; the previous responses stay on show. */
  function StartFetch(s: Results): (s': Results)
    ensures forall e: Env :: Get(s', e).loading && Get(s', e).response == Get(s, e).response
  {
    Results(s.mainnet.(loading := true), s.testnet.(loading := true))
  }

  /** A response for `e` arrives: it replaces that environment's response and ends its loading. */
  function Receive(s: Results, e: Env, resp: SearchResponse): (s': Results)
    ensures Get(s', e) == EnvResults(resp, false)
    ensures Get(s', Other(e)) == Get(s, Other(e))
  {
    Set(s, e, EnvResults(resp, false))
  }

  /** Responses from the two environments may arrive in either order with the same outcome. */
  lemma ReceiveCommutes(s: Results, e: Env, a: SearchResponse, b: SearchResponse)
    ensures Receive(Receive(s, e, a), Other(e), b) == Receive(Receive(s, Other(e), b), e, a)
  {
  }

  /** A later response for the same environment overwrites the earlier one entirely. */
  lemma ReceiveOverwrites(s: Results, e: Env, a: SearchResponse, b: SearchResponse)
    ensures Receive(Receive(s, e, a), e, b) == Receive(s, e, b)
  {
  }

  /** Once both responses of a search are in, nothing is loading and nothing of the earlier
      state is left, whatever the arrival order. */
  lemma SearchCompletes(s: Results, e: Env, a: SearchResponse, b: SearchResponse)
    ensures var done := Receive(Receive(StartFetch(s), e, a), Other(e), b);
      && Get(done, e) == EnvResults(a, false)
      && Get(done, Other(e)) == EnvResults(b, false)
  {
  }

  // ---------------------------------------------------------------------------
  // Counts.

  /** `response?.data?.total_contracts_count || 0`. */
  function CountOrZero(resp: SearchResponse): int {
    match resp.data
    case None => 0
    case Some(d) => d.totalCount.GetOr(0)
  }

  /** `response?.data?.contracts`, missing read as no rows. */
  function Rows(resp: SearchResponse): seq<ContractSummary> {
    match resp.data
    case None => []
    case Some(d) => d.contracts.GetOr([])
  }

  /** The number in the header: both environments' counts, a missing count read as 0. */
  function TotalCount(s: Results): int {
    CountOrZero(s.mainnet.response) + CountOrZero(s.testnet.response)
  }

  /** A response changes the total by exactly the change in its own environment's count. */
  lemma TotalAfterReceive(s: Results, e: Env, resp: SearchResponse)
    ensures TotalCount(Receive(s, e, resp))
         == TotalCount(s) - CountOrZero(Get(s, e).response) + CountOrZero(resp)
  {
  }

  /** Starting a search leaves the total as it was; on mount it is 0. */
  lemma TotalIgnoresLoading(s: Results)
    ensures TotalCount(StartFetch(s)) == TotalCount(s)
    ensures TotalCount(Initial) == 0
  {
  }

  // ---------------------------------------------------------------------------
  // The two tab panels.

  /** Below the spinner: the results table, or, without rows, mainnet's skeleton table or
      testnet's "No results." text, the latter hidden while testnet is loading. */
  datatype Body = Table(rows: seq<ContractSummary>) | Skeleton | NoResults(hidden: bool)

  /** A tab: the count in its trigger (printed as is, so absent when the response has none),
      the count in its panel heading, whether the spinner shows, and the body. */
  datatype Panel = Panel(badge: Option<int>, heading: int, spinner: bool, body: Body)

  function TotalCountField(resp: SearchResponse): Option<int> {
    match resp.data
    case None => None
    case Some(d) => d.totalCount
  }

  /** A tab's panel, read from its own environment only; the spinner is drawn above the body. */
  function RenderPanel(s: Results, e: Env): (p: Panel)
    ensures p.badge == TotalCountField(Get(s, e).response)
    ensures p.heading == CountOrZero(Get(s, e).response)
    ensures p.heading == p.badge.GetOr(0)
    ensures p.spinner == Get(s, e).loading
    ensures p.body.Table? <==> |Rows(Get(s, e).response)| > 0
    ensures p.body.Table? ==> p.body.rows == Rows(Get(s, e).response)
    ensures p.body.Skeleton? <==> e == Mainnet && |Rows(Get(s, e).response)| == 0
    ensures p.body.NoResults? ==> e == Testnet && p.body.hidden == p.spinner
  {
    var env := Get(s, e);
    var rows := Rows(env.response);
    var body :=
      if |rows| > 0 then Table(rows)
      else if e == Mainnet then Skeleton
      else NoResults(env.loading);
    Panel(TotalCountField(env.response), CountOrZero(env.response), env.loading, body)
  }

  /** The "No results." text is never visible while its environment is loading. */
  lemma NoResultsHiddenWhileLoading(s: Results, e: Env)
    requires Get(s, e).loading
    ensures !(RenderPanel(s, e).body.NoResults? && !RenderPanel(s, e).body.hidden)
  {
  }

  /** A response for one environment leaves the other tab's panel exactly as it was, and
      settles its own: no spinner, and the table exactly when the response has rows. */
  lemma ReceiveRendersOwnPanelOnly(s: Results, e: Env, resp: SearchResponse)
    ensures RenderPanel(Receive(s, e, resp), Other(e)) == RenderPanel(s, Other(e))
    ensures !RenderPanel(Receive(s, e, resp), e).spinner
    ensures RenderPanel(Receive(s, e, resp), e).body.Table? <==> |Rows(resp)| > 0
    ensures RenderPanel(Receive(s, e, resp), e).heading == CountOrZero(resp)
  {
  }

  /** The header total is the sum of the two panel headings. */
  lemma TotalIsSumOfHeadings(s: Results)
    ensures TotalCount(s) == RenderPanel(s, Mainnet).heading + RenderPanel(s, Testnet).heading
  {
  }
}
