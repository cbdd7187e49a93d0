/**
 * Model of constants.ts: the `chainID` numeric enum, the `chain` string
 * enum, the set of main networks and the two membership predicates.
 */
module Constants {
  import opened Wrappers

  /** `enum chainID`: member name to chain identifier. */
  const ChainIDs: map<string, int> := map["BNBChain" := 56, "BNBChainTestnet" := 97]

  /** `enum chain`: member name to network name (each member names itself). */
  const Chains: map<string, string> :=
    map["BNBChain" := "BNBChain", "BNBChainTestnet" := "BNBChainTestnet"]

  /** `mainnets`: the networks whose tokens have real value. */
  const Mainnets: set<string> := {Chains["BNBChain"]}

  /** `chainID[net]`: the identifier the enum holds under that name, undefined otherwise. */
  function ChainIdOf(net: string): (r: Option<int>)
    ensures r.Some? <==> IsDefinedNetwork(net)
    ensures r == Some(56) <==> net == "BNBChain"
    ensures r == Some(97) <==> net == "BNBChainTestnet"
  {
    DefinedNetworks(net);
    if net in ChainIDs then Some(ChainIDs[net]) else None
  }

  /** `isDefinedNetwork`: `Object.values(chain).includes(net)`, an exact, case-sensitive match. */
  predicate IsDefinedNetwork(net: string)
  {
    net in Chains.Values
  }

  /** `isMainnet`: `mainnets.has(net)`. */
  predicate IsMainnet(net: string)
  {
    net in Mainnets
  }

  lemma DefinedNetworks(net: string)
    ensures IsDefinedNetwork(net) <==> net == "BNBChain" || net == "BNBChainTestnet"
  {
    assert Chains["BNBChain"] == "BNBChain";
    assert Chains["BNBChainTestnet"] == "BNBChainTestnet";
  }

  lemma MainnetNetworks(net: string)
    ensures IsMainnet(net) <==> net == "BNBChain"
  {
  }

  /** Every main network is a defined network. */
  lemma MainnetIsDefined(net: string)
    ensures IsMainnet(net) ==> IsDefinedNetwork(net)
  {
    DefinedNetworks(net);
  }

  /** The test network is defined but is not a main network. */
  lemma TestnetIsNotMainnet()
    ensures IsDefinedNetwork("BNBChainTestnet") && !IsMainnet("BNBChainTestnet")
  {
    DefinedNetworks("BNBChainTestnet");
  }

  /** The two identifiers are 56 and 97, and no two networks share one. */
  lemma ChainIdsDistinct()
    ensures ChainIdOf("BNBChain") == Some(56) && ChainIdOf("BNBChainTestnet") == Some(97)
    ensures forall a, b :: a in ChainIDs && b in ChainIDs && a != b ==> ChainIDs[a] != ChainIDs[b]
  {
  }

  /** Every member of `chain` has a `chainID` entry under the same name, and conversely. */
  lemma EveryChainHasId()
    ensures Chains.Keys == ChainIDs.Keys
    ensures forall name :: name in Chains ==> Chains[name] == name && ChainIdOf(name).Some?
  {
  }
}
