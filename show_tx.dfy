/**
 * The explorer link of the `ShowTx` component: whether a link may be shown for a
 * chain on the build's cluster, the explorer URL for a transaction id, and the render
 * guard that decides whether the "View on ..." button appears.
 */
module ShowTx {
  import opened Wrappers
  import opened Chains

  /** `showExplorerLink`: live clusters always, devnet only for Solana and the Terra chains. */
  predicate ShowExplorerLink(chain: Chain, cluster: Cluster): (shown: bool)
    ensures cluster != Devnet ==> shown
    ensures cluster == Devnet ==> (shown <==> chain.Solana? || chain.Terra? || chain.Terra2?)
  {
    cluster == Testnet || cluster == Mainnet ||
    (cluster == Devnet && (chain == Solana || IsTerraChain(chain)))
  }

  /** The `CLUSTER === "testnet" ? a : b` choice every explorer template makes. */
  function TestnetOr(cluster: Cluster, onTestnet: string, otherwise: string): string {
    if cluster == Testnet then onTestnet else otherwise
  }

  /** The template `${CLUSTER === "testnet" ? sub : ""}${host}`. */
  function TestnetSubdomainOf(cluster: Cluster, sub: string, host: string): string {
    if cluster == Testnet then sub + host else host
  }

  /** The template `https://${host}${path}${id}` shared by every explorer. */
  function Url(host: string, path: string, id: string): (url: string)
    ensures |url| == 8 + |host| + |path| + |id|
    ensures url[..8] == "https://"
    ensures url[|url| - |path| - |id|..] == path + id
  {
    var url := "https://" + host + path + id;
    assert url == "https://" + host + (path + id);
    url
  }

  /**
   * A URL whose scheme, site and path spell out a known literal prefix. This lemma and the
   * literal-equality lemmas below are proof steps only: comparing long string literals is
   * expensive for the verifier, so each comparison is proved once, on its own.
   */
  lemma UrlFromPrefix(site: string, path: string, id: string, prefix: string)
    requires "https://" + site + path == prefix
    ensures Url(site, path, id) == prefix + id
  {
  }

  /** Putting a subdomain in front of a site puts it right after the scheme of the URL. */
  lemma UrlWithSubdomain(sub: string, site: string, path: string, id: string)
    ensures Url(sub + site, path, id) == "https://" + sub + Url(site, path, id)[8..]
  {
    assert Url(site, path, id)[8..] == site + path + id;
    assert Url(sub + site, path, id) == "https://" + sub + (site + path + id);
  }

  function SolscanQuery(cluster: Cluster): string {
    if cluster == Testnet then "?cluster=devnet"
    else if cluster == Devnet then "?cluster=custom&customUrl=http%3A%2F%2Flocalhost%3A8899"
    else ""
  }

  function Terra2Network(cluster: Cluster): string {
    if cluster == Devnet then "localterra"
    else if cluster == Testnet then "pisco-1"
    else "phoenix-1"
  }

  /**
   * The text between "https://" and the transaction path in the URL `explorerAddress`
   * builds for `chain` (host, and for the Terra finder also the network); None where
   * `explorerAddress` is `undefined`.
   */
  function ExplorerSite(chain: Chain, cluster: Cluster): (site: Option<string>)
    ensures site.None? <==> !HasExplorer(chain) || (chain == Terra && cluster != Mainnet)
  {
    match chain
    case Ethereum => Some(TestnetSubdomainOf(cluster, "goerli.", "etherscan.io"))
    case EthereumRopsten => Some(TestnetSubdomainOf(cluster, "ropsten.", "etherscan.io"))
    case Bsc => Some(TestnetSubdomainOf(cluster, "testnet.", "bscscan.com"))
    case Polygon => Some(TestnetSubdomainOf(cluster, "mumbai.", "polygonscan.com"))
    case Avalanche => Some(TestnetSubdomainOf(cluster, "testnet.", "snowtrace.io"))
    case Oasis => Some(TestnetSubdomainOf(cluster, "testnet.", "explorer.emerald.oasis.dev"))
    case Aurora => Some(TestnetSubdomainOf(cluster, "testnet.", "aurorascan.dev"))
    case Fantom => Some(TestnetSubdomainOf(cluster, "testnet.", "ftmscan.com"))
    case Klaytn => Some(TestnetSubdomainOf(cluster, "baobab.", "scope.klaytn.com"))
    case Celo => Some(TestnetOr(cluster, "alfajores-blockscout.celo-testnet.org", "explorer.celo.org"))
    case Karura => Some(TestnetOr(cluster, "blockscout.karura-dev.aca-dev.network", "blockscout.karura.network"))
    case Acala => Some(TestnetOr(cluster, "blockscout.acala-dev.aca-dev.network", "blockscout.acala.network"))
    case Solana => Some("solscan.io")
    case Terra => if cluster == Mainnet then Some("finder.terra.money/columbus-5") else None
    case Terra2 => Some("finder.terra.money/" + Terra2Network(cluster))
    case Algorand => Some(TestnetSubdomainOf(cluster, "testnet.", "algoexplorer.io"))
    case Near => Some("explorer." + TestnetSubdomainOf(cluster, "testnet.", "near.org"))
    case _ => None
  }

  /** The path segment before the transaction id. */
  function TxPath(chain: Chain): string {
    if chain == Near then "/transactions/" else "/tx/"
  }

  /** `explorerAddress`: the explorer URL of transaction `id` on `chain`, None for `undefined`. */
  function ExplorerAddress(chain: Chain, cluster: Cluster, id: string): (url: Option<string>)
    ensures url.Some? ==> |url.value| > 8 + |id| && url.value[..8] == "https://"
  {
    match ExplorerSite(chain, cluster)
    case None => None
    case Some(site) =>
      var url := Url(site, TxPath(chain), id);
      // only Solscan takes a cluster query after the id
      Some(if chain == Solana then url + SolscanQuery(cluster) else url)
  }

  /**
   * The `href` of the "View on ..." button, None where the component renders no button:
   * it needs `showExplorerLink` and a truthy `explorerAddress` (every URL is non-empty).
   */
  function ViewButtonHref(chain: Chain, cluster: Cluster, id: string): (href: Option<string>)
    ensures href.Some? <==> ShowExplorerLink(chain, cluster) && ExplorerAddress(chain, cluster, id).Some?
    ensures href.Some? ==> href == ExplorerAddress(chain, cluster, id)
  {
    var address := ExplorerAddress(chain, cluster, id);
    if ShowExplorerLink(chain, cluster) && address.Some? && address.value != "" then address else None
  }

  /** The chains the explorer chain names at all. */
  predicate HasExplorer(chain: Chain) {
    !(chain.Moonbeam? || chain.Neon? || chain.Unlisted?)
  }

  /** A URL exists exactly for the named chains, Terra classic only on mainnet. */
  lemma ExplorerDefinedness(chain: Chain, cluster: Cluster, id: string)
    ensures ExplorerAddress(chain, cluster, id).Some? <==>
              HasExplorer(chain) && (chain == Terra ==> cluster == Mainnet)
  {
  }

  /** Proof step: the literal comparison behind `TerraClassicUrl`, kept apart to stay cheap. */
  lemma TerraClassicPrefix()
    ensures "https://" + "finder.terra.money/columbus-5" + "/tx/" == "https://finder.terra.money/columbus-5/tx/"
  {
  }

  /** The Terra classic finder URL on mainnet. */
  lemma TerraClassicUrl(id: string)
    ensures ExplorerAddress(Terra, Mainnet, id) == Some("https://finder.terra.money/columbus-5/tx/" + id)
  {
    var site := "finder.terra.money/columbus-5";
    assert ExplorerSite(Terra, Mainnet) == Some(site);
    TerraClassicPrefix();
    UrlFromPrefix(site, "/tx/", id, "https://finder.terra.money/columbus-5/tx/");
  }

  lemma TerraClassicMainnetOnly(cluster: Cluster, id: string)
    ensures ExplorerAddress(Terra, cluster, id).Some? <==> cluster == Mainnet
    ensures cluster == Mainnet ==>
              ExplorerAddress(Terra, cluster, id) == Some("https://finder.terra.money/columbus-5/tx/" + id)
  {
    if cluster == Mainnet {
      TerraClassicUrl(id);
    } else {
      assert ExplorerSite(Terra, cluster) == None;
    }
  }

  lemma SolscanUrl(cluster: Cluster, id: string)
    ensures cluster == Testnet ==>
              ExplorerAddress(Solana, cluster, id) == Some("https://solscan.io/tx/" + id + "?cluster=devnet")
    ensures cluster == Devnet ==>
              ExplorerAddress(Solana, cluster, id) ==
              Some("https://solscan.io/tx/" + id + "?cluster=custom&customUrl=http%3A%2F%2Flocalhost%3A8899")
    ensures cluster == Mainnet ==> ExplorerAddress(Solana, cluster, id) == Some("https://solscan.io/tx/" + id)
  {
    var url := Url("solscan.io", "/tx/", id);
    UrlFromPrefix("solscan.io", "/tx/", id, "https://solscan.io/tx/");
    assert url + "" == url;
  }

  /** Proof step: the literal comparison behind `Terra2FinderUrl`, kept apart to stay cheap. */
  lemma FinderPrefix()
    ensures "https://" + "finder.terra.money/" == "https://finder.terra.money/"
  {
  }

  /** The Terra2 finder URL with its network segment left symbolic. */
  lemma Terra2FinderUrl(cluster: Cluster, id: string)
    ensures ExplorerAddress(Terra2, cluster, id) ==
              Some("https://finder.terra.money/" + Terra2Network(cluster) + "/tx/" + id)
  {
    var network := Terra2Network(cluster);
    var site := "finder.terra.money/" + network;
    assert ExplorerSite(Terra2, cluster) == Some(site);
    FinderPrefix();
    assert Url(site, "/tx/", id) == "https://" + "finder.terra.money/" + network + "/tx/" + id;
  }

  /** The network segment of the Terra2 finder URL on each cluster. */
  lemma Terra2Url(cluster: Cluster, id: string)
    ensures cluster == Devnet ==>
              ExplorerAddress(Terra2, cluster, id) == Some("https://finder.terra.money/" + "localterra" + "/tx/" + id)
    ensures cluster == Testnet ==>
              ExplorerAddress(Terra2, cluster, id) == Some("https://finder.terra.money/" + "pisco-1" + "/tx/" + id)
    ensures cluster == Mainnet ==>
              ExplorerAddress(Terra2, cluster, id) == Some("https://finder.terra.money/" + "phoenix-1" + "/tx/" + id)
  {
    Terra2FinderUrl(cluster, id);
  }

  predicate EndsWith(s: string, suffix: string) {
    |suffix| <= |s| && s[|s| - |suffix|..] == suffix
  }

  /** Every URL but Solscan's (which carries a cluster query) ends with the path and the id. */
  lemma UrlEndsWithTxId(chain: Chain, cluster: Cluster, id: string)
    requires chain != Solana && ExplorerAddress(chain, cluster, id).Some?
    ensures EndsWith(ExplorerAddress(chain, cluster, id).value, TxPath(chain) + id)
  {
  }

  /** The chains whose testnet explorer is the mainnet host under an extra subdomain. */
  predicate HasTestnetSubdomain(chain: Chain) {
    chain.Ethereum? || chain.EthereumRopsten? || chain.Bsc? || chain.Polygon? || chain.Avalanche? ||
    chain.Oasis? || chain.Aurora? || chain.Fantom? || chain.Klaytn?
  }

  function TestnetSubdomain(chain: Chain): string
    requires HasTestnetSubdomain(chain)
  {
    match chain
    case Ethereum => "goerli."
    case EthereumRopsten => "ropsten."
    case Polygon => "mumbai."
    case Klaytn => "baobab."
    case _ => "testnet."
  }

  /** The sites behind `TestnetInsertsSubdomain`: devnet's is mainnet's, testnet's has the subdomain. */
  lemma SubdomainSites(chain: Chain)
    requires HasTestnetSubdomain(chain)
    ensures ExplorerSite(chain, Mainnet).Some?
    ensures ExplorerSite(chain, Devnet) == ExplorerSite(chain, Mainnet)
    ensures ExplorerSite(chain, Testnet) == Some(TestnetSubdomain(chain) + ExplorerSite(chain, Mainnet).value)
  {
  }

  /**
   * For those chains the testnet URL is the mainnet URL with the subdomain inserted right
   * after the scheme, and devnet uses the mainnet URL unchanged.
   */
  lemma TestnetInsertsSubdomain(chain: Chain, id: string)
    requires HasTestnetSubdomain(chain)
    ensures ExplorerAddress(chain, Devnet, id) == ExplorerAddress(chain, Mainnet, id)
    ensures ExplorerAddress(chain, Testnet, id).Some? && ExplorerAddress(chain, Mainnet, id).Some?
    ensures ExplorerAddress(chain, Testnet, id).value ==
              "https://" + TestnetSubdomain(chain) + ExplorerAddress(chain, Mainnet, id).value[8..]
  {
    SubdomainSites(chain);
    var site := ExplorerSite(chain, Mainnet).value;
    UrlWithSubdomain(TestnetSubdomain(chain), site, TxPath(chain), id);
  }

  /** On the live clusters the button appears exactly when the chain has a URL. */
  lemma ViewButtonOnLiveClusters(chain: Chain, cluster: Cluster, id: string)
    requires cluster != Devnet
    ensures ViewButtonHref(chain, cluster, id) == ExplorerAddress(chain, cluster, id)
  {
  }

  /** On devnet only Solana and Terra2 get a button: Terra classic has no devnet URL. */
  lemma ViewButtonOnDevnet(chain: Chain, id: string)
    ensures ViewButtonHref(chain, Devnet, id).Some? <==> chain == Solana || chain == Terra2
  {
  }
}
