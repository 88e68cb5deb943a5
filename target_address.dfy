/**
 * The decision logic of `useSyncTargetAddress`, as values: which branch of the effect's
 * `if`/`else` chain fires for the current inputs, what the synchronous branches dispatch,
 * and what an asynchronous branch dispatches once its awaited calls have settled.
 * The stateful side (the store, the per-run `cancelled` flag, the async continuations)
 * is in module SyncTargetAddress.
 */
module TargetAddress {
  import opened Wrappers
  import opened Bytes
  import opened Chains

  /**
   * What the effect reads. Optional strings that JavaScript tests for truthiness are
   * modelled with "" for both `undefined` and the empty string.
   */
  datatype Inputs = Inputs(
    shouldFire: bool,
    nft: bool,                           // NFT flow: NFT store slice, no known token account
    targetChain: Chain,
    signerAddress: string,               // EVM provider's signer, "0x"-prefixed hex
    solanaPublicKey: Option<Key32>,      // `solPK`, the Solana wallet's key
    targetAsset: string,                 // target mint / asset address
    targetTokenAccount: string,          // `targetParsedTokenAccount?.publicKey` (base58)
    terraWalletAddress: Option<string>,  // None: no connected Terra wallet
    algorandAccounts: seq<string>,       // addresses of the connected Algorand accounts
    nearAccountId: string,
    nearWalletConnected: bool)

  /**
   * The foreign library calls, each returning None where the call throws:
   * `new PublicKey(s).toBytes()` (base58), `Token.getAssociatedTokenAddress(mint, owner)`,
   * wormhole `canonicalAddress` (bech32 payload) and algosdk `decodeAddress(..).publicKey`.
   */
  datatype Foreign = Foreign(
    parsePublicKey: string -> Option<Key32>,
    associatedTokenAddress: (Key32, Key32) -> Option<Key32>,
    canonicalAddress: string -> Option<seq<Byte>>,
    decodeAddress: string -> Option<Key32>)

  /** A point where an asynchronous branch is suspended, awaiting the call it names. */
  datatype Step =
    | Derivation(mint: Key32, owner: Key32)      // getAssociatedTokenAddress
    | AccountSetup(account: string)              // makeNearAccount
    | HashAccountView(account: string)           // viewFunction("hash_account")
    | Registration(account: string, hash: string) // signAndSendTransactions("register_account")

  /** How the Near calls before the registration settle. */
  datatype NearView =
    | AccountFailed                          // `makeNearAccount` rejected: no view call is sent
    | ViewFailed                             // the `hash_account` view rejected
    | Viewed(registered: bool, hash: string) // `account_hash[0]` and `account_hash[1]`

  /** What one run of the effect does synchronously. */
  datatype Action =
    | Skip                              // shouldFire is false: no dispatch, no cleanup
    | PublishNow(value: Option<string>) // one synchronous `setTargetAddressHex`
    | Throw                             // an uncaught call threw out of the effect
    | Await(step: Step)                 // an async branch started and is suspended

  /** `uint8ArrayToHex(zeroPad(b, 32))`; None where `zeroPad` throws. */
  function PaddedHex(b: seq<Byte>): (h: Option<string>)
    ensures h.Some? <==> |b| <= 32
    ensures h.Some? ==> ParseHex(h.value) == ZeroPad(b, 32)
  {
    match ZeroPad(b, 32)
    case None => None
    case Some(p) => HexRoundTrip(p); Some(ToHex(p))
  }

  function PublishOrThrow(h: Option<string>): Action {
    if h.Some? then PublishNow(h) else Throw
  }

  /** The effect body: the first branch whose guard holds fires. */
  function Decide(inp: Inputs, lib: Foreign): (a: Action)
    ensures a.Skip? <==> !inp.shouldFire
  {
    var chain := inp.targetChain;
    if !inp.shouldFire then Skip
    else if IsEvmChain(chain) && inp.signerAddress != "" then
      match Arrayify(inp.signerAddress)
      case None => Throw
      case Some(a) => PublishOrThrow(PaddedHex(a))
    else if !inp.nft && chain == Solana && inp.targetTokenAccount != "" then
      match lib.parsePublicKey(inp.targetTokenAccount)
      case None => Throw
      case Some(k) => PublishOrThrow(PaddedHex(k))
    else if chain == Solana && inp.solanaPublicKey.Some? && inp.targetAsset != "" then
      // `new PublicKey(targetAsset)` runs before the first await, inside the try
      match lib.parsePublicKey(inp.targetAsset)
      case None => PublishNow(None)
      case Some(mint) => Await(Derivation(mint, inp.solanaPublicKey.value))
    else if IsTerraChain(chain) && inp.terraWalletAddress.Some? && inp.terraWalletAddress.value != "" then
      match lib.canonicalAddress(inp.terraWalletAddress.value)
      case None => Throw
      case Some(c) => PublishOrThrow(PaddedHex(c))
    else if chain == Algorand && |inp.algorandAccounts| > 0 then
      match lib.decodeAddress(inp.algorandAccounts[0])
      case None => Throw
      case Some(k) => PublishNow(Some(ToHex(k)))
    else if chain == Near && inp.nearAccountId != "" && inp.nearWalletConnected then
      Await(AccountSetup(inp.nearAccountId))
    else PublishNow(None)
  }

  /** Only the Solana derivation and the Near branch suspend the run. */
  lemma DecideAwaits(inp: Inputs, lib: Foreign)
    ensures Decide(inp, lib).Await? ==>
              (inp.targetChain == Solana && Decide(inp, lib).step.Derivation?) ||
              (inp.targetChain == Near && Decide(inp, lib).step == AccountSetup(inp.nearAccountId))
  {
  }

  /** The Solana continuation: the padded derived key, or `undefined` when the call rejects. */
  function DerivedTarget(lib: Foreign, mint: Key32, owner: Key32): (r: Option<string>)
    ensures r.Some? <==> lib.associatedTokenAddress(mint, owner).Some?
  {
    match lib.associatedTokenAddress(mint, owner)
    case None => None
    case Some(k) => PaddedHex(k)
  }

  /** The published derived key decodes back to the 32 bytes the library returned. */
  lemma DerivedTargetDecodes(lib: Foreign, mint: Key32, owner: Key32)
    requires DerivedTarget(lib, mint, owner).Some?
    ensures ParseHex(DerivedTarget(lib, mint, owner).value) == Some(lib.associatedTokenAddress(mint, owner).value)
  {
    var k := lib.associatedTokenAddress(mint, owner).value;
    ZeroPadFullWidth(k);
  }

  /**
   * What a suspended branch dispatches if it is never cancelled, given how the Near account
   * and view calls settle and the registration's last result (None: the transaction
   * failed). The registration's own result is not used. A run already past
   * `makeNearAccount` reads `AccountFailed` as a failed view.
   */
  function Settled(lib: Foreign, step: Step, near: NearView, registration: Option<string>)
    : (r: Option<string>)
    ensures step.Derivation? ==> (r.Some? <==> lib.associatedTokenAddress(step.mint, step.owner).Some?)
    ensures !step.Derivation? && r.Some? ==> registration.Some? || (near.Viewed? && near.registered)
    ensures step.Registration? && registration.None? ==> r.None?
  {
    match step
    case Derivation(mint, owner) => DerivedTarget(lib, mint, owner)
    case AccountSetup(_) => ViewedHash(near, registration)
    case HashAccountView(_) => ViewedHash(near, registration)
    case Registration(_, hash) => if registration.Some? then Some(hash) else None
  }

  /** The view's hash once the account is registered, `undefined` when any call failed. */
  function ViewedHash(near: NearView, registration: Option<string>): (r: Option<string>)
    ensures r.Some? <==> near.Viewed? && (near.registered || registration.Some?)
    ensures r.Some? ==> r.value == near.hash
  {
    if near.Viewed? && (near.registered || registration.Some?) then Some(near.hash) else None
  }

  /** The end result of one run that nothing cancels. */
  datatype Outcome = Silent | Threw | Published(value: Option<string>)

  function Resolution(inp: Inputs, lib: Foreign, near: NearView, registration: Option<string>)
    : (o: Outcome)
    ensures o.Silent? <==> !inp.shouldFire
    ensures o.Threw? <==> Decide(inp, lib).Throw?
  {
    match Decide(inp, lib)
    case Skip => Silent
    case Throw => Threw
    case PublishNow(v) => Published(v)
    case Await(step) => Published(Settled(lib, step, near, registration))
  }

  /** The store value a fresh store holds after the run. */
  function ResolvedValue(o: Outcome): Option<string> {
    if o.Published? then o.value else None
  }

  /** The gas and deposit `register_account` is sent with (0.002 NEAR in yoctoNEAR). */
  const RegisterGas: nat := 100_000_000_000_000
  const RegisterDeposit: nat := 2_000_000_000_000_000_000_000

  /** The calls a run sends to the Near token bridge contract. */
  datatype NearCall =
    | HashAccount(account: string)
    | RegisterAccount(account: string, gas: nat, deposit: nat)

  /** The view call sent once `makeNearAccount` resolves, whether or not the run was cancelled. */
  function ViewCalls(step: Step, near: NearView): seq<NearCall> {
    if step.AccountSetup? && !near.AccountFailed? then [HashAccount(step.account)] else []
  }

  /** The registration a `hash_account` response leads to in a run that was not cancelled. */
  function RegistrationCalls(step: Step, near: NearView): seq<NearCall> {
    if (step.AccountSetup? || step.HashAccountView?) && near.Viewed? && !near.registered
    then [RegisterAccount(step.account, RegisterGas, RegisterDeposit)]
    else []
  }

  /** The calls a suspended branch sends on its way to settling, never cancelled. */
  function SettleCalls(step: Step, near: NearView): seq<NearCall> {
    ViewCalls(step, near) + RegistrationCalls(step, near)
  }

  /** The calls one uncancelled run sends to the Near token bridge contract, in order. */
  function NearCalls(inp: Inputs, lib: Foreign, near: NearView): (calls: seq<NearCall>)
    ensures |calls| <= 2
    ensures calls != [] ==> inp.targetChain == Near && calls[0] == HashAccount(inp.nearAccountId)
    ensures near.AccountFailed? ==> calls == []
  {
    match Decide(inp, lib)
    case Await(step) => SettleCalls(step, near)
    case _ => []
  }

  // ---------------------------------------------------------------------------------
  // Properties of the decision

  lemma NotFiringDoesNothing(inp: Inputs, lib: Foreign, near: NearView, registration: Option<string>)
    requires !inp.shouldFire
    ensures Resolution(inp, lib, near, registration) == Silent
    ensures NearCalls(inp, lib, near) == []
  {
  }

  /**
   * An EVM signer `0x<hex of a>` is published as `a` left-padded with zeros to 32 bytes,
   * synchronously, whatever the other ecosystems' wallets hold.
   */
  lemma EvmSignerPadded(inp: Inputs, lib: Foreign, a: seq<Byte>)
    requires inp.shouldFire && IsEvmChain(inp.targetChain) && inp.signerAddress != ""
    requires Arrayify(inp.signerAddress) == Some(a) && |a| <= 32
    ensures Decide(inp, lib).PublishNow? && Decide(inp, lib).value.Some?
    ensures ParseHex(Decide(inp, lib).value.value) == Some(seq(32 - |a|, _ => 0) + a)
  {
  }

  /** A signer longer than 32 bytes makes `zeroPad` throw out of the effect. */
  lemma EvmSignerTooLong(inp: Inputs, lib: Foreign, a: seq<Byte>)
    requires inp.shouldFire && IsEvmChain(inp.targetChain) && inp.signerAddress != ""
    requires Arrayify(inp.signerAddress) == Some(a) && |a| > 32
    ensures Decide(inp, lib) == Throw
  {
  }

  /**
   * Every well-formed signer, checksummed (mixed-case) or not, takes the EVM branch and is
   * dispatched padded; a signer that is not `0x` and an even number of hex digits throws.
   */
  lemma EvmSignerAccepted(inp: Inputs, lib: Foreign)
    requires inp.shouldFire && IsEvmChain(inp.targetChain) && inp.signerAddress != ""
    ensures IsHexString(inp.signerAddress) && |inp.signerAddress| <= 66 ==>
              Decide(inp, lib).PublishNow? && Decide(inp, lib).value.Some?
    ensures !IsHexString(inp.signerAddress) ==> Decide(inp, lib) == Throw
  {
    ArrayifyAccepts(inp.signerAddress);
  }

  /** On an EVM chain only the signer matters: the other wallets never change the result. */
  lemma EvmIgnoresOtherWallets(inp: Inputs, other: Inputs, lib: Foreign)
    requires IsEvmChain(inp.targetChain)
    requires other.shouldFire == inp.shouldFire && other.targetChain == inp.targetChain
    requires other.signerAddress == inp.signerAddress
    ensures Decide(other, lib) == Decide(inp, lib)
  {
  }

  /**
   * In a token transfer to Solana a known token account wins over derivation: it is
   * published directly (its 32 bytes need no padding) and nothing is awaited.
   */
  lemma KnownTokenAccountWins(inp: Inputs, lib: Foreign, k: Key32)
    requires inp.shouldFire && !inp.nft && inp.targetChain == Solana && inp.targetTokenAccount != ""
    requires lib.parsePublicKey(inp.targetTokenAccount) == Some(k)
    ensures Decide(inp, lib) == PublishNow(Some(ToHex(k)))
  {
    ZeroPadFullWidth(k);
  }

  /** The NFT flow never uses the known token account: only wallet key and asset count. */
  lemma NftIgnoresKnownTokenAccount(inp: Inputs, other: Inputs, lib: Foreign)
    requires inp.nft && other.nft && inp.targetChain == Solana
    requires other.shouldFire == inp.shouldFire && other.targetChain == inp.targetChain
    requires other.solanaPublicKey == inp.solanaPublicKey && other.targetAsset == inp.targetAsset
    ensures Decide(other, lib) == Decide(inp, lib)
  {
  }

  /**
   * Derivation happens only with a wallet key and an asset and no usable known account;
   * a malformed mint is `undefined` at once, otherwise the run awaits the derivation,
   * which publishes the derived key or, on failure, `undefined`.
   */
  lemma SolanaDerivation(inp: Inputs, lib: Foreign, near: NearView, registration: Option<string>)
    requires inp.shouldFire && inp.targetChain == Solana
    requires inp.nft || inp.targetTokenAccount == ""
    ensures Decide(inp, lib).Await? <==>
              inp.solanaPublicKey.Some? && inp.targetAsset != "" && lib.parsePublicKey(inp.targetAsset).Some?
    ensures Decide(inp, lib).Await? ==>
              var mint := lib.parsePublicKey(inp.targetAsset).value;
              var derived := lib.associatedTokenAddress(mint, inp.solanaPublicKey.value);
              Resolution(inp, lib, near, registration) ==
                Published(if derived.Some? then Some(ToHex(derived.value)) else None)
    ensures !Decide(inp, lib).Await? ==> Decide(inp, lib) == PublishNow(None)
  {
    if Decide(inp, lib).Await? {
      var mint := lib.parsePublicKey(inp.targetAsset).value;
      var derived := lib.associatedTokenAddress(mint, inp.solanaPublicKey.value);
      if derived.Some? {
        ZeroPadFullWidth(derived.value);
      }
    }
  }

  /** A Terra wallet's canonical address is published left-padded to 32 bytes. */
  lemma TerraCanonicalPadded(inp: Inputs, lib: Foreign, c: seq<Byte>)
    requires inp.shouldFire && IsTerraChain(inp.targetChain)
    requires inp.terraWalletAddress.Some? && inp.terraWalletAddress.value != ""
    requires lib.canonicalAddress(inp.terraWalletAddress.value) == Some(c)
    ensures |c| <= 32 ==>
              Decide(inp, lib).PublishNow? && Decide(inp, lib).value.Some? &&
              ParseHex(Decide(inp, lib).value.value) == Some(seq(32 - |c|, _ => 0) + c)
    ensures |c| > 32 ==> Decide(inp, lib) == Throw
  {
  }

  /** Algorand publishes the first account's decoded public key, unpadded, as 64 hex digits. */
  lemma AlgorandKeyUnpadded(inp: Inputs, lib: Foreign, k: Key32)
    requires inp.shouldFire && inp.targetChain == Algorand && |inp.algorandAccounts| > 0
    requires lib.decodeAddress(inp.algorandAccounts[0]) == Some(k)
    ensures Decide(inp, lib) == PublishNow(Some(ToHex(k)))
    ensures ParseHex(ToHex(k)) == Some(k) && |ToHex(k)| == 64
  {
    HexRoundTrip(k);
  }

  /**
   * Near publishes the hash from the `hash_account` view call whether or not the account
   * was registered; an unregistered account is registered first, and whatever the
   * registration returns is ignored unless it failed, in which case `undefined` is published.
   */
  lemma NearPublishesViewHash(
    inp: Inputs, lib: Foreign, registered: bool, hash: string, registration: Option<string>)
    requires inp.shouldFire && inp.targetChain == Near
    requires inp.nearAccountId != "" && inp.nearWalletConnected
    ensures Resolution(inp, lib, Viewed(registered, hash), registration) ==
              Published(if registered || registration.Some? then Some(hash) else None)
    ensures NearCalls(inp, lib, Viewed(registered, hash)) ==
              [HashAccount(inp.nearAccountId)] +
              (if registered then [] else [RegisterAccount(inp.nearAccountId, RegisterGas, RegisterDeposit)])
  {
  }

  /**
   * A failed `makeNearAccount` or `hash_account` view publishes `undefined` and registers
   * nothing; the view is sent only once the account was made.
   */
  lemma NearViewFailure(inp: Inputs, lib: Foreign, registration: Option<string>)
    requires inp.shouldFire && inp.targetChain == Near
    requires inp.nearAccountId != "" && inp.nearWalletConnected
    ensures Resolution(inp, lib, AccountFailed, registration) == Published(None)
    ensures Resolution(inp, lib, ViewFailed, registration) == Published(None)
    ensures NearCalls(inp, lib, AccountFailed) == []
    ensures NearCalls(inp, lib, ViewFailed) == [HashAccount(inp.nearAccountId)]
  {
  }

  /** `register_account` is sent at most once per run, and only for an unregistered Near account. */
  lemma AtMostOneRegistration(inp: Inputs, lib: Foreign, near: NearView)
    ensures |NearCalls(inp, lib, near)| <= 2
    ensures (exists i :: 0 <= i < |NearCalls(inp, lib, near)| && NearCalls(inp, lib, near)[i].RegisterAccount?) <==>
              Decide(inp, lib).Await? && Decide(inp, lib).step.AccountSetup? && near.Viewed? && !near.registered
  {
    var calls := NearCalls(inp, lib, near);
    if Decide(inp, lib).Await? && Decide(inp, lib).step.AccountSetup? && near.Viewed? && !near.registered {
      assert calls[1].RegisterAccount?;
    }
  }

  /**
   * A failing foreign call in a synchronous branch is not caught: a malformed known token
   * account, a Terra address `canonicalAddress` rejects, or an Algorand address
   * `decodeAddress` rejects makes the effect throw.
   */
  lemma SyncForeignFailureThrows(inp: Inputs, lib: Foreign)
    requires inp.shouldFire
    ensures (!inp.nft && inp.targetChain == Solana && inp.targetTokenAccount != "" &&
             lib.parsePublicKey(inp.targetTokenAccount).None?) ==> Decide(inp, lib) == Throw
    ensures (IsTerraChain(inp.targetChain) && inp.terraWalletAddress.Some? && inp.terraWalletAddress.value != "" &&
             lib.canonicalAddress(inp.terraWalletAddress.value).None?) ==> Decide(inp, lib) == Throw
    ensures (inp.targetChain == Algorand && |inp.algorandAccounts| > 0 &&
             lib.decodeAddress(inp.algorandAccounts[0]).None?) ==> Decide(inp, lib) == Throw
  {
  }

  /** No wallet connected for the selected chain's ecosystem. */
  predicate NoWalletFor(inp: Inputs) {
    var chain := inp.targetChain;
    (IsEvmChain(chain) ==> inp.signerAddress == "") &&
    // a known token account is dispatched even without a Solana wallet (KnownTokenAccountWins)
    (chain == Solana ==> inp.solanaPublicKey.None? && inp.targetTokenAccount == "") &&
    (IsTerraChain(chain) ==> inp.terraWalletAddress.None? || inp.terraWalletAddress.value == "") &&
    (chain == Algorand ==> inp.algorandAccounts == []) &&
    (chain == Near ==> inp.nearAccountId == "" || !inp.nearWalletConnected)
  }

  /** Without a wallet the run publishes `undefined` synchronously, whatever else is set. */
  lemma NoWalletUnresolved(inp: Inputs, lib: Foreign)
    requires inp.shouldFire && NoWalletFor(inp)
    ensures Decide(inp, lib) == PublishNow(None)
  {
  }

  /** A chain of no supported family resolves to `undefined` with no call at all. */
  lemma UnsupportedChainUnresolved(inp: Inputs, lib: Foreign, near: NearView)
    requires inp.shouldFire && inp.targetChain.Unlisted?
    ensures Decide(inp, lib) == PublishNow(None)
    ensures NearCalls(inp, lib, near) == []
  {
  }

  /**
   * Every address the EVM, Solana, Terra and Algorand branches publish is the hex of
   * exactly 32 bytes.
   */
  lemma PublishedAddressIs32Bytes(
    inp: Inputs, lib: Foreign, near: NearView, registration: Option<string>, h: string)
    requires inp.targetChain != Near
    requires Resolution(inp, lib, near, registration) == Published(Some(h))
    ensures ParseHex(h).Some? && |ParseHex(h).value| == 32
  {
    var chain := inp.targetChain;
    if chain == Algorand && !(IsEvmChain(chain) && inp.signerAddress != "") {
      var k := lib.decodeAddress(inp.algorandAccounts[0]).value;
      assert h == ToHex(k);
      HexRoundTrip(k);
    }
  }
}
