# Target address and explorer link of the Wormhole bridge UI, in Dafny

This project models two parts of the Wormhole bridge UI:

- **The target-address resolver `useSyncTargetAddress`.** This effect runs whenever its inputs change. It picks one branch of an `if`/`else` chain by target chain and connected wallet:
  - EVM signer;
  - known Solana token account;
  - derived Solana associated token account;
  - Terra canonical address;
  - Algorand public key;
  - Near account hash.

  It then dispatches the resulting 32-byte address as hex, or `undefined`, into the transfer or NFT store slice. Each run has a local `cancelled` flag, which the run's cleanup sets. The flag keeps a superseded asynchronous branch (Solana derivation, the Near view call and registration) from dispatching.
- **The explorer link of `ShowTx`.** This covers the `showExplorerLink` predicate, the `explorerAddress` URL for each chain and cluster, and the guard that decides whether the "View on ..." button is rendered.

Files:

- `bytes.dfy`: the `Option` type (`undefined`, or a call that throws), bytes, and the byte helpers.
  - `uint8ArrayToHex` is `ToHex`, proved to round-trip through `ParseHex`.
  - ethers `arrayify` and `zeroPad` are `Arrayify` and `ZeroPad`.
- `chains.dfy`: the chain identifiers, the EVM and Terra families, and the build cluster.
- `show_tx.dfy`: `ShowTx` as pure functions, with lemmas about the URLs.
- `target_address.dfy`: the resolver's decision logic as values.
  - `Decide` is the synchronous part of one run.
  - `Settled` is what a suspended branch dispatches once its awaits settle.
  - `Resolution` and `NearCalls` give the end result of an uncancelled run.
- `sync_target_address.dfy`: the stateful side.
  - `Store` holds the two `targetAddressHex` slices.
  - `Resolver` holds one `cancelled` flag per run, the cleanup React holds, the suspended branches and the calls sent to the Near bridge contract. Each await's completion is a separate method, so every interleaving of re-runs, cleanups and completions can be expressed.
  - Ghost state records which runs dispatched and which runs threw. The invariant `Valid` states:
    - only the run whose cleanup is held, and runs that threw, are uncancelled;
    - a run that is still suspended, or that threw, has not dispatched;
    - a finished run that was never cancelled and did not throw has dispatched.
  - A run dispatches at most once. `Publish` requires that the run has not dispatched yet, and `Valid` keeps suspended runs undispatched.
  - Scenario methods run whole sequences on a fresh store.

Three details of the code that the model keeps as written:

- **Near.** The Near branch dispatches the hash from the `hash_account` view call (`account_hash[1]`). It does not dispatch the value returned by the `register_account` submission, which is only logged. If the registration fails, the branch dispatches `undefined` instead.
- **Solana derivation.** The mint's `new PublicKey(targetAsset)` is evaluated before the first `await`, inside the `try`. A malformed mint therefore dispatches `undefined` synchronously, and the run never suspends.
- **Uncaught exceptions.** An exception in the synchronous branches is not caught:
  - `arrayify` of a malformed signer;
  - `zeroPad` of a value longer than 32 bytes;
  - a malformed known token account;
  - `canonicalAddress`;
  - `decodeAddress`.

  In each case the effect throws. Nothing is dispatched and no cleanup is installed (`Action.Throw`).

## Model

| member | source | states |
|---|---|---|
| Bytes.HexRoundTrip | bridge_ui/src/hooks/useSyncTargetAddress.ts:66 | the hex text `uint8ArrayToHex` produces parses back to exactly the original bytes |
| Bytes.ToHexInjective | bridge_ui/src/hooks/useSyncTargetAddress.ts:66 | distinct byte strings are published as distinct hex strings |
| Bytes.ToHex | bridge_ui/src/hooks/useSyncTargetAddress.ts:66 | two lower-case hex digits per byte |
| Bytes.ArrayifyRoundTrip | bridge_ui/src/hooks/useSyncTargetAddress.ts:66 | `arrayify` of `0x` followed by the hex of some bytes yields those bytes |
| Bytes.Arrayify | bridge_ui/src/hooks/useSyncTargetAddress.ts:66 | a successful `arrayify` had a `0x` prefix and two digits per byte; `ArrayifyReads` gives the bytes for digits of either case |
| Bytes.LowerDigit | bridge_ui/src/hooks/useSyncTargetAddress.ts:66 | an upper-case hex digit has the same value as its lower-case letter |
| Bytes.ParseHexReads | bridge_ui/src/hooks/useSyncTargetAddress.ts:66 | the bytes parsed from hex text of either case are written back by `uint8ArrayToHex` as the same text lower-cased |
| Bytes.ArrayifyReads | bridge_ui/src/hooks/useSyncTargetAddress.ts:66 | a checksummed (mixed-case) signer is read as the bytes whose lower-case hex is its digits after `0x` |
| Bytes.ParseHexAccepts | bridge_ui/src/hooks/useSyncTargetAddress.ts:66 | hex text parses iff it has even length and only hex digits, of either case |
| Bytes.ArrayifyAccepts | bridge_ui/src/hooks/useSyncTargetAddress.ts:66 | `arrayify` succeeds iff the text is `0x` and an even number of hex digits, lower, upper or mixed case |
| Bytes.ZeroPad | bridge_ui/src/hooks/useSyncTargetAddress.ts:66 | `zeroPad(v, n)` succeeds iff v has at most n bytes; the result has n bytes: zeros, then v |
| Bytes.ZeroPadFullWidth | bridge_ui/src/hooks/useSyncTargetAddress.ts:80 | a 32-byte key is left unchanged by padding to 32 |
| TargetAddress.PaddedHex | bridge_ui/src/hooks/useSyncTargetAddress.ts:66 | padding and hex encoding succeed iff the value has at most 32 bytes, and the text decodes to the padded bytes |
| TargetAddress.Decide | bridge_ui/src/hooks/useSyncTargetAddress.ts:60-177 | a run does nothing iff `shouldFire` is false; which branch it takes and what it then does is pinned down by the branch lemmas below (`EvmSignerPadded` through `UnsupportedChainUnresolved`) |
| TargetAddress.DecideAwaits | bridge_ui/src/hooks/useSyncTargetAddress.ts:84-174 | only the Solana derivation and the Near branch suspend the run, and the Near branch starts at `makeNearAccount` for the run's account id |
| TargetAddress.DerivedTarget | bridge_ui/src/hooks/useSyncTargetAddress.ts:86-107 | the derivation yields a value iff `getAssociatedTokenAddress` resolves |
| TargetAddress.DerivedTargetDecodes | bridge_ui/src/hooks/useSyncTargetAddress.ts:86-107 | the dispatched derived key decodes back to exactly the 32 bytes the library returned |
| TargetAddress.Settled | bridge_ui/src/hooks/useSyncTargetAddress.ts:86-174 | a derivation dispatches a value iff the library resolves; a Near branch dispatches a value only for a registered account or a successful registration, and a failed registration dispatches `undefined`; `SolanaDerivation` and `NearPublishesViewHash` give the values |
| TargetAddress.ViewedHash | bridge_ui/src/hooks/useSyncTargetAddress.ts:141-172 | the view's hash is dispatched iff the view succeeded and the account was or got registered; otherwise `undefined` |
| TargetAddress.Resolution | bridge_ui/src/hooks/useSyncTargetAddress.ts:60-177 | a run is silent iff it does not fire and throws iff its synchronous part throws; `ResolveOnce` ties it to the store |
| TargetAddress.NearCalls | bridge_ui/src/hooks/useSyncTargetAddress.ts:126-174 | a run sends at most two Near calls, the first of them `hash_account` for the run's account, and none when `makeNearAccount` fails; `AtMostOneRegistration` says when the second is `register_account` |
| TargetAddress.SyncForeignFailureThrows | bridge_ui/src/hooks/useSyncTargetAddress.ts:71-125 | a malformed known token account, a Terra address `canonicalAddress` rejects, or an Algorand account `decodeAddress` rejects makes the effect throw |
| TargetAddress.NotFiringDoesNothing | bridge_ui/src/hooks/useSyncTargetAddress.ts:61 | without `shouldFire` a run does nothing: no dispatch, no Near call |
| TargetAddress.EvmSignerPadded | bridge_ui/src/hooks/useSyncTargetAddress.ts:63-68 | an EVM signer that `arrayify` reads as up to 32 bytes, in any letter case, is dispatched synchronously as those bytes left-padded with zeros to 32 |
| TargetAddress.EvmSignerTooLong | bridge_ui/src/hooks/useSyncTargetAddress.ts:63-68 | a signer that `arrayify` reads as more than 32 bytes makes the effect throw |
| TargetAddress.EvmSignerAccepted | bridge_ui/src/hooks/useSyncTargetAddress.ts:63-68 | every well-formed signer of at most 32 bytes, checksummed or not, is dispatched; a malformed signer makes the effect throw |
| TargetAddress.EvmIgnoresOtherWallets | bridge_ui/src/hooks/useSyncTargetAddress.ts:63 | on an EVM chain the other ecosystems' wallets never change the result: the EVM branch comes first |
| TargetAddress.KnownTokenAccountWins | bridge_ui/src/hooks/useSyncTargetAddress.ts:71-83 | in a token transfer to Solana a known token account is dispatched at once, unpadded 32 bytes, with no derivation |
| TargetAddress.NftIgnoresKnownTokenAccount | bridge_ui/src/hooks/useSyncTargetAddress.ts:72 | in the NFT flow the known token account never changes the result |
| TargetAddress.SolanaDerivation | bridge_ui/src/hooks/useSyncTargetAddress.ts:84-107 | derivation is awaited iff there is a wallet key, an asset and a well-formed mint; it yields the derived key padded, or `undefined` on failure; otherwise `undefined` is dispatched synchronously |
| TargetAddress.TerraCanonicalPadded | bridge_ui/src/hooks/useSyncTargetAddress.ts:108-119 | a Terra wallet's canonical address is dispatched left-padded to 32 bytes, and the effect throws when it is longer |
| TargetAddress.AlgorandKeyUnpadded | bridge_ui/src/hooks/useSyncTargetAddress.ts:120-125 | Algorand dispatches the first account's decoded 32-byte key as 64 hex digits, with no padding |
| TargetAddress.NearPublishesViewHash | bridge_ui/src/hooks/useSyncTargetAddress.ts:126-174 | Near dispatches the view call's hash whether or not the account was registered, and `undefined` when registration fails; `register_account` is sent exactly when the account is unregistered |
| TargetAddress.NearViewFailure | bridge_ui/src/hooks/useSyncTargetAddress.ts:127-172 | a failing `makeNearAccount` or view call dispatches `undefined` and registers nothing; the view is sent only after the account was made |
| TargetAddress.AtMostOneRegistration | bridge_ui/src/hooks/useSyncTargetAddress.ts:145-158 | a run sends at most two Near calls, and a `register_account` among them iff it is a Near run whose view reported an unregistered account |
| TargetAddress.NoWalletUnresolved | bridge_ui/src/hooks/useSyncTargetAddress.ts:175-177 | with no wallet for the target chain's ecosystem and, for Solana, no known token account, `undefined` is dispatched synchronously |
| TargetAddress.UnsupportedChainUnresolved | bridge_ui/src/hooks/useSyncTargetAddress.ts:175-177 | a chain of no supported family dispatches `undefined` and makes no Near call |
| TargetAddress.PublishedAddressIs32Bytes | bridge_ui/src/hooks/useSyncTargetAddress.ts:63-125 | every address the EVM, Solana, Terra and Algorand branches dispatch is the hex of exactly 32 bytes |
| SyncTargetAddress.CancelRun | bridge_ui/src/hooks/useSyncTargetAddress.ts:178-180 | the cleanup sets exactly the cancelled flag of the run it belongs to |
| SyncTargetAddress.Store.SetTargetAddressHex | bridge_ui/src/hooks/useSyncTargetAddress.ts:57-59 | dispatch writes the chosen slice, transfer or NFT, and leaves the other alone |
| SyncTargetAddress.Resolver.OneLiveRun | bridge_ui/src/hooks/useSyncTargetAddress.ts:62-180 | at most one run is neither cancelled nor thrown, and it is the one whose cleanup React holds |
| SyncTargetAddress.Resolver.Publish | bridge_ui/src/hooks/useSyncTargetAddress.ts:64-68 | a run dispatches into its slice only while it is uncancelled and only if it has not dispatched before |
| SyncTargetAddress.Resolver.Start | bridge_ui/src/hooks/useSyncTargetAddress.ts:60-180 | a re-run first cancels the previous run, then dispatches, throws or suspends as `Decide` says, and keeps the invariant |
| SyncTargetAddress.Resolver.Begin | bridge_ui/src/hooks/useSyncTargetAddress.ts:62-177 | the body of a firing run: a fresh uncancelled flag; an immediate dispatch, a throw, or a suspended branch; no Near call is sent yet |
| SyncTargetAddress.Resolver.Cleanup | bridge_ui/src/hooks/useSyncTargetAddress.ts:178-180 | unmounting cancels the held run and keeps the invariant |
| SyncTargetAddress.Resolver.CompleteDerivation | bridge_ui/src/hooks/useSyncTargetAddress.ts:88-106 | the settled derivation dispatches its padded result or `undefined`, and nothing when the run was cancelled |
| SyncTargetAddress.Resolver.CompleteAccountSetup | bridge_ui/src/hooks/useSyncTargetAddress.ts:127-172 | once `makeNearAccount` resolves the view call is sent, cancelled or not; a rejection dispatches `undefined` unless the run was cancelled |
| SyncTargetAddress.Resolver.CompleteHashAccount | bridge_ui/src/hooks/useSyncTargetAddress.ts:129-172 | the settled view call: cancelled, nothing; unregistered, `register_account` sent and the run waits; otherwise the hash (or `undefined` on failure) dispatched |
| SyncTargetAddress.Resolver.CompleteRegistration | bridge_ui/src/hooks/useSyncTargetAddress.ts:148-172 | the settled registration dispatches the view's hash, or `undefined` on failure, and nothing when the run was cancelled meanwhile |
| SyncTargetAddress.Resolver.CompleteViewAndRegistration | bridge_ui/src/hooks/useSyncTargetAddress.ts:134-172 | the view and any registration settle: the view's hash or `undefined` is dispatched and the registration sent, or nothing when the run is cancelled |
| SyncTargetAddress.Resolver.CompleteNearRun | bridge_ui/src/hooks/useSyncTargetAddress.ts:127-172 | a Near branch settles from `makeNearAccount` on: the calls `SettleCalls` names and the hash `ViewedHash` gives, or only the view call when cancelled |
| SyncTargetAddress.Resolver.Settle | bridge_ui/src/hooks/useSyncTargetAddress.ts:86-174 | all awaits of a run settle uncancelled: it dispatches `Settled` once and sends the registration it needs |
| SyncTargetAddress.ResolveOnce | bridge_ui/src/hooks/useSyncTargetAddress.ts:60-180 | one uncancelled run leaves its `Resolution` in the store and sends exactly `NearCalls` |
| SyncTargetAddress.ResolveTwice | bridge_ui/src/hooks/useSyncTargetAddress.ts:60-180 | re-running on the same inputs leaves the same value in the store |
| SyncTargetAddress.Supersede | bridge_ui/src/hooks/useSyncTargetAddress.ts:86-180 | when inputs change during an async branch, the store ends with the newer run's result even when the older one settles last |
| SyncTargetAddress.CancelDuringRegistration | bridge_ui/src/hooks/useSyncTargetAddress.ts:141-180 | unmounting during registration keeps the sent registration but dispatches nothing |
| ShowTx.ShowExplorerLink | bridge_ui/src/components/ShowTx.tsx:44-48 | the link is shown on every cluster but devnet, and on devnet exactly for Solana, Terra classic and Terra2 |
| ShowTx.ExplorerSite | bridge_ui/src/components/ShowTx.tsx:49-132 | a chain has an explorer site iff `explorerAddress` names it, Terra classic only on mainnet; `ExplorerDefinedness` carries it to the URL |
| ShowTx.ViewButtonHref | bridge_ui/src/components/ShowTx.tsx:140-151 | the button is rendered iff the link is shown and a URL exists, and it links to that URL; `ViewButtonOnLiveClusters` and `ViewButtonOnDevnet` specialise it by cluster |
| ShowTx.Url | bridge_ui/src/components/ShowTx.tsx:49-131 | every explorer URL starts with `https://` and ends with its path and the transaction id |
| ShowTx.ExplorerAddress | bridge_ui/src/components/ShowTx.tsx:49-132 | a defined URL is longer than scheme plus id and starts with `https://` |
| ShowTx.ExplorerDefinedness | bridge_ui/src/components/ShowTx.tsx:49-132 | a URL exists iff `explorerAddress` names the chain, Terra classic only on mainnet; any other chain id gives `undefined` |
| ShowTx.TerraClassicMainnetOnly | bridge_ui/src/components/ShowTx.tsx:112-115 | Terra classic has the columbus-5 finder URL on mainnet and none elsewhere |
| ShowTx.SolscanUrl | bridge_ui/src/components/ShowTx.tsx:104-111 | the Solscan URL and its cluster query on each cluster |
| ShowTx.Terra2Url | bridge_ui/src/components/ShowTx.tsx:116-123 | the Terra2 finder network is localterra, pisco-1 or phoenix-1 by cluster |
| ShowTx.UrlEndsWithTxId | bridge_ui/src/components/ShowTx.tsx:49-131 | every defined URL other than Solscan's ends with `/tx/<id>`, for Near `/transactions/<id>` |
| ShowTx.TestnetInsertsSubdomain | bridge_ui/src/components/ShowTx.tsx:50-85 | for the EVM-style explorers testnet inserts the fixed subdomain after the scheme, and devnet uses the mainnet URL |
| ShowTx.ViewButtonOnLiveClusters | bridge_ui/src/components/ShowTx.tsx:44-151 | on testnet and mainnet the button appears exactly when a URL exists, linking to it |
| ShowTx.ViewButtonOnDevnet | bridge_ui/src/components/ShowTx.tsx:44-151 | on devnet the button appears only for Solana and Terra2 |

## Left out

- React and redux plumbing is not modelled: `useSelector`, `useDispatch`, the wallet context hooks and the dependency array. A run is started by calling `Resolver.Start` with the inputs it reads, and dispatch is `Store.SetTargetAddressHex`.
- Foreign library calls are parameters (`Foreign`), each returning None where it throws:
  - `PublicKey` base58 parsing;
  - `Token.getAssociatedTokenAddress`, a program-derived address search;
  - `canonicalAddress`, bech32 decoding;
  - algosdk `decodeAddress`, base32 decoding.

  Solana and Algorand keys are 32 bytes by type. The canonical address may have any length.
- Near RPC and transaction submission are not modelled as calls. `makeNearAccount`, `viewFunction`, `signAndSendTransactions` and `getTransactionLastResult` become results passed to the completion methods:
  - `makeNearAccount` either resolves or rejects (`CompleteAccountSetup`);
  - the view response is an optional pair of the registered flag and the hash (`CompleteHashAccount`);
  - the registration result is optional (`CompleteRegistration`);
  - for a whole run these combine into `NearView` (account failed, view failed, or viewed) and the registration result.

  Each call is logged in `nearCalls` when it is sent: the view call once `makeNearAccount` resolves, the registration once the view reports an unregistered account.

  The contract account `NEAR_TOKEN_BRIDGE_ACCOUNT` is not part of this model.
- The shape of the `hash_account` response is not checked. The code indexes `account_hash[0]` and `account_hash[1]` of whatever the view returns; the model takes a pair.
- JavaScript truthiness of the optional strings is not modelled separately: `undefined` and the empty string are both the empty string.
- `console.log` diagnostics are not modelled.
- The chain-family membership of `isEVMChain` and `isTerraChain`, and the value of `CLUSTER`, come from the wormhole SDK and the build environment, which are not part of this model. The families are written out in `Chains`.
- MUI styling, JSX rendering and `getExplorerName` are not modelled. The button's label comes from a file that is not part of this model.
- `KeyAndBalance.tsx` only chooses which wallet widget to render and is not modelled.
- TargetAddress.NoWalletUnresolved: the statement also requires no known Solana token account. The code dispatches a known token account even without a Solana wallet (see `KnownTokenAccountWins`), so "no wallet means `undefined`" does not hold regardless of the other inputs.
- Promise scheduling is not modelled. A suspended branch settles when its completion method is called, in any order the caller chooses.
