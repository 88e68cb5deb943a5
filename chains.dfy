/**
 * Wormhole chain identifiers and the cluster the bridge UI is built for.
 * The constants and the family predicates `isEVMChain` / `isTerraChain` come from the
 * wormhole SDK, which is not part of this model; the membership below is the SDK's
 * for the chains this UI names.
 */
module Chains {

  datatype Chain =
    | Solana | Ethereum | Terra | Bsc | Polygon | Avalanche | Oasis | Algorand
    | Aurora | Fantom | Karura | Acala | Klaytn | Celo | Near | Moonbeam | Neon
    | Terra2 | EthereumRopsten
      /**
       * Stands only for wormhole chain ids the constructors above do not name (the unset
       * id 0 among them); none is EVM or Terra.
       */
    | Unlisted(id: nat)

  predicate IsEvmChain(c: Chain) {
    c.Ethereum? || c.Bsc? || c.Avalanche? || c.Polygon? || c.Oasis? || c.Aurora? ||
    c.Fantom? || c.Karura? || c.Acala? || c.Klaytn? || c.Celo? || c.Moonbeam? ||
    c.Neon? || c.EthereumRopsten?
  }

  predicate IsTerraChain(c: Chain) {
    c.Terra? || c.Terra2?
  }

  /** `CLUSTER`: the network the UI was built for, one of three values. */
  datatype Cluster = Devnet | Testnet | Mainnet
}
