/**
 * Model of the logic in hardhat.config.ts: loading and normalising the
 * private key, and completing every configured network with its chain
 * identifier and signing account.
 */
module HardhatConfig {
  import opened Wrappers
  import Constants

  // ---------------------------------------------------------------------
  // Private key normalisation: privateKey.replace(/\s/g, "")

  /**
   * The characters ECMAScript's `\s` class matches: WhiteSpace (tab,
   * vertical tab, form feed, space, no-break space, byte-order mark and
   * the space separators) and LineTerminator (line feed, carriage return,
   * line and paragraph separators).
   */
  predicate IsWhitespace(c: char)
  {
    var u := c as int;
    || 0x09 <= u <= 0x0D
    || u == 0x20 || u == 0xA0 || u == 0x1680
    || 0x2000 <= u <= 0x200A
    || u == 0x2028 || u == 0x2029 || u == 0x202F || u == 0x205F || u == 0x3000 || u == 0xFEFF
  }

  predicate NoWhitespace(s: string)
  {
    forall i :: 0 <= i < |s| ==> !IsWhitespace(s[i])
  }

  /** Deletes every whitespace character (the global regular-expression replace). */
  function StripWhitespace(s: string): (r: string)
    ensures |r| <= |s|
  {
    if s == [] then []
    else (if IsWhitespace(s[0]) then [] else [s[0]]) + StripWhitespace(s[1..])
  }

  /** No whitespace survives the replace. */
  lemma {:induction false} StripLeavesNoWhitespace(s: string)
    ensures NoWhitespace(StripWhitespace(s))
  {
    if s != [] {
      StripLeavesNoWhitespace(s[1..]);
      var kept := if IsWhitespace(s[0]) then [] else [s[0]];
      var rest := StripWhitespace(s[1..]);
      forall i | 0 <= i < |kept + rest|
        ensures !IsWhitespace((kept + rest)[i])
      {
        if i >= |kept| {
          assert (kept + rest)[i] == rest[i - |kept|];
        }
      }
    }
  }

  /** Stripping works piecewise: it distributes over concatenation. */
  lemma {:induction false} StripConcat(a: string, b: string)
    ensures StripWhitespace(a + b) == StripWhitespace(a) + StripWhitespace(b)
  {
    if a == [] {
      assert a + b == b;
    } else {
      var kept := if IsWhitespace(a[0]) then [] else [a[0]];
      assert (a + b)[0] == a[0];
      assert (a + b)[1..] == a[1..] + b;
      assert StripWhitespace(a + b) == kept + StripWhitespace(a[1..] + b);
      StripConcat(a[1..], b);
      assert StripWhitespace(a) == kept + StripWhitespace(a[1..]);
      assert kept + (StripWhitespace(a[1..]) + StripWhitespace(b)) ==
             (kept + StripWhitespace(a[1..])) + StripWhitespace(b);
    }
  }

  /** A non-whitespace character is kept, in its place between what precedes and what follows it. */
  lemma KeepsCharacterInPlace(before: string, c: char, after: string)
    requires !IsWhitespace(c)
    ensures StripWhitespace(before + [c] + after) ==
            StripWhitespace(before) + [c] + StripWhitespace(after)
  {
    StripConcat(before + [c], after);
    StripConcat(before, [c]);
  }

  /** A whitespace character is dropped and nothing else moves. */
  lemma DropsWhitespaceInPlace(before: string, c: char, after: string)
    requires IsWhitespace(c)
    ensures StripWhitespace(before + [c] + after) ==
            StripWhitespace(before) + StripWhitespace(after)
  {
    StripConcat(before + [c], after);
    StripConcat(before, [c]);
  }

  /** Every non-whitespace character occurs as often after stripping as before. */
  lemma {:induction false} StripKeepsCounts(s: string, c: char)
    requires !IsWhitespace(c)
    ensures multiset(StripWhitespace(s))[c] == multiset(s)[c]
  {
    if s != [] {
      var kept := if IsWhitespace(s[0]) then [] else [s[0]];
      StripKeepsCounts(s[1..], c);
      assert s == [s[0]] + s[1..];
      assert multiset(s) == multiset([s[0]]) + multiset(s[1..]);
      assert StripWhitespace(s) == kept + StripWhitespace(s[1..]);
      assert multiset(StripWhitespace(s)) == multiset(kept) + multiset(StripWhitespace(s[1..]));
      assert multiset(kept)[c] == multiset([s[0]])[c];
    }
  }

  /** A string without whitespace is left as it is. */
  lemma {:induction false} StripClean(s: string)
    requires NoWhitespace(s)
    ensures StripWhitespace(s) == s
  {
    if s != [] {
      StripClean(s[1..]);
    }
  }

  /** Normalising twice is the same as normalising once. */
  lemma StripIdempotent(s: string)
    ensures StripWhitespace(StripWhitespace(s)) == StripWhitespace(s)
  {
    StripLeavesNoWhitespace(s);
    StripClean(StripWhitespace(s));
  }

  /**
   * hardhat.config.ts lines 9-14: the key is empty unless the key file
   * exists; then it is the file's text with all whitespace removed.
   * `keyFile` is the file's content, None when the file does not exist.
   */
  method LoadPrivateKey(keyFile: Option<string>) returns (privateKey: string)
    ensures keyFile.None? ==> privateKey == ""
    ensures keyFile.Some? ==> privateKey == StripWhitespace(keyFile.value)
    ensures NoWhitespace(privateKey)
  {
    privateKey := "";
    if keyFile.Some? {
      privateKey := keyFile.value;
      privateKey := StripWhitespace(privateKey);
      StripLeavesNoWhitespace(keyFile.value);
    }
  }

  // ---------------------------------------------------------------------
  // The networks table

  /**
   * One entry of `config.networks`: the fields this file reads or writes.
   * `accounts` is None while unset (Hardhat then uses the node's accounts).
   */
  datatype NetworkUserConfig = NetworkUserConfig(
    url: Option<string>,
    chainId: Option<int>,
    accounts: Option<seq<string>>)

  /** The name Hardhat reserves for its built-in network, skipped by the loop. */
  const HardhatNetwork: string := "hardhat"

  /** The configuration object; only its networks table has logic attached. */
  class HardhatUserConfig {
    var networks: map<string, NetworkUserConfig>

    /** The table as written in the file: BNBChain with its RPC endpoint. */
    constructor (bnbRpcUrl: string)
      ensures networks == map["BNBChain" := NetworkUserConfig(Some(bnbRpcUrl), None, None)]
    {
      networks := map[Constants.Chains["BNBChain"] := NetworkUserConfig(Some(bnbRpcUrl), None, None)];
    }

    /**
     * hardhat.config.ts lines 55-63: `for (var net in config.networks)`.
     * Every network other than `hardhat` gets `chainId = chainID[net]`
     * (undefined when the enum has no such member) and, when the key is
     * not empty, `accounts = [privateKey]`. The iteration order does not
     * matter: each step touches only its own entry.
     */
    method ApplyNetworkDefaults(privateKey: string)
      modifies this
      ensures networks.Keys == old(networks).Keys
      ensures HardhatNetwork in networks ==> networks[HardhatNetwork] == old(networks)[HardhatNetwork]
      ensures forall net :: net in networks ==> networks[net].url == old(networks)[net].url
      ensures forall net :: net in networks && net != HardhatNetwork ==>
                networks[net].chainId == Constants.ChainIdOf(net)
      ensures forall net :: net in networks && net != HardhatNetwork ==>
                networks[net].accounts ==
                  (if privateKey != "" then Some([privateKey]) else old(networks)[net].accounts)
    {
      var remaining := networks.Keys;
      while remaining != {}
        invariant remaining <= networks.Keys
        invariant networks.Keys == old(networks).Keys
        invariant forall net :: net in networks ==>
                    networks[net] == if net in remaining || net == HardhatNetwork then old(networks)[net]
                                     else CompletedEntry(net, old(networks)[net], privateKey)
        decreases remaining
      {
        var net :| net in remaining;
        remaining := remaining - {net};
        if net == HardhatNetwork {
          continue;
        }
        var entry := networks[net];
        entry := entry.(chainId := Constants.ChainIdOf(net));
        if privateKey != "" {
          entry := entry.(accounts := Some([privateKey]));
        }
        networks := networks[net := entry];
      }
    }
  }

  /**
   * One iteration of the loop on the entry for `net`: its chain identifier
   * is looked up and, when the key is not empty, its accounts replaced.
   */
  function CompletedEntry(net: string, entry: NetworkUserConfig, privateKey: string): NetworkUserConfig
  {
    var withChain := entry.(chainId := Constants.ChainIdOf(net));
    if privateKey != "" then withChain.(accounts := Some([privateKey])) else withChain
  }

  /**
   * The whole module-level script: load the key, build the configuration,
   * complete the networks. `keyFile` is the content of `.private_key`
   * (None when absent) and `bnbRpcUrl` the configured endpoint variable.
   */
  method LoadConfig(keyFile: Option<string>, bnbRpcUrl: string)
    returns (config: HardhatUserConfig, privateKey: string)
    ensures fresh(config)
    ensures privateKey == (if keyFile.Some? then StripWhitespace(keyFile.value) else "")
    ensures config.networks == map["BNBChain" := NetworkUserConfig(
              Some(bnbRpcUrl), Some(56), if privateKey != "" then Some([privateKey]) else None)]
  {
    privateKey := LoadPrivateKey(keyFile);
    config := new HardhatUserConfig(bnbRpcUrl);
    config.ApplyNetworkDefaults(privateKey);
    assert "BNBChain" in config.networks;
  }
}
