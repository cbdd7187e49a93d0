/**
 * Model of scripts/console.ts: the start-up sequence of the interactive
 * console. It installs an override key, acquires the signer, writes the
 * helper bindings into the global object, checks the node's chain
 * identifier against the configured one, reports the signer's balance and
 * starts the REPL.
 *
 * The node, the signer subsystem and the REPL are foreign: the node is a
 * value holding its replies, and every observable step is recorded as an
 * event in `trace`, so that the order of the steps can be stated.
 */
module Console {
  import opened Wrappers
  import UnitFormat
  import HardhatConfig
  import Constants

  type Address = string

  /** A signer from `hre.ethers.getSigners()`; only its address is used. */
  datatype Signer = Signer(address: Address)

  /**
   * Why `main()` rejects: a node request failed, or `me.address` was read
   * while `me` is undefined (no signer exists), which throws a TypeError.
   */
  datatype Failure = RpcFailure | SignerUndefined

  /** The remote node and the signer subsystem, as the script sees them. */
  datatype Node = Node(
    signers: Option<seq<string>> -> Result<seq<Signer>, Failure>,  // getSigners() for the configured accounts
    chainId: Result<int, Failure>,                                 // (await provider.getNetwork()).chainId
    balanceOf: Address -> Result<nat, Failure>)                    // provider.getBalance(addr)

  /** What the script writes into the global object. */
  datatype Binding =
    | MeBinding(signer: Option<Signer>)  // `me`: the first signer, undefined when there is none
    | BigIntBinding(value: nat)          // `ONE`
    | BalanceHelper                      // `balance(addr?)`
    | UnitHelper(decimals: nat)          // `e0` ... `e18`
    | HostValue                          // whatever the global object held already

  /** Everything the start-up sequence does that can be observed, in order. */
  datatype Event =
    | SetAccounts(keys: seq<string>)                 // hre.network.config.accounts = [privateKey]
    | GetSigners(accounts: Option<seq<string>>)      // await hre.ethers.getSigners()
    | SetGlobal(name: string)                        // global[name] = ...
    | GetNetwork                                     // await provider.getNetwork()
    | LogMismatch(local: Option<int>, remote: int)   // local chainID ... != remote chainID ...
    | Exit                                           // process.exit()
    | LogChain(name: string, chainId: int)           // chain: ..., chainID: ...
    | GetBalance(address: Address)                   // await provider.getBalance(addr)
    | LogBalance(address: Address, balance: string)  // deployer: ..., native token balance: ...
    | LogAddressBalance(address: Address, balance: string)  // <addr> native token balance: ...
    | LogValue(text: string)                         // console.log(readable) in a unit helper
    | StartRepl                                      // require("repl").start()
    | LogError(failure: Failure)                     // console.error(error); process.exitCode = 1

  /** How the start-up sequence ends. */
  datatype Outcome =
    | Exited           // process.exit() after a chain mismatch
    | Failed(failure: Failure)  // main() rejected; the catch handler sets process.exitCode = 1
    | SessionStarted   // the REPL runs with the bindings

  /** The exit status the process ends with; None while the REPL keeps it alive. */
  function ExitStatus(o: Outcome): Option<int>
  {
    match o
    case Exited => Some(0)  // process.exit() without a code and with no exitCode set
    case Failed(_) => Some(1)
    case SessionStarted => None
  }

  // ---------------------------------------------------------------------
  // The chain-identity guard

  datatype ChainCheck = Matched(chainId: int) | Mismatched(local: Option<int>, remote: int)

  /**
   * `localChainID === undefined || remoteChainID !== BigInt(localChainID)`:
   * the session may go on only when a chain identifier is configured and
   * equals the one the node reports.
   */
  function CheckChainId(local: Option<int>, remote: int): (r: ChainCheck)
    ensures r.Matched? <==> local == Some(remote)
    ensures r.Matched? ==> r.chainId == remote
    ensures r.Mismatched? ==> r.local == local && r.remote == remote
  {
    if local.None? || remote != local.value then Mismatched(local, remote) else Matched(remote)
  }

  /**
   * The guard on a network the loop of hardhat.config.ts completes (every
   * configured name except `hardhat`, whose chain identifier comes from
   * Hardhat's defaults): a name the `chainID` enum does not know has no
   * chain identifier and is always rejected; BNBChain is accepted exactly
   * when the node reports 56.
   */
  lemma GuardOnConfiguredNetwork(name: string, remote: int)
    ensures CheckChainId(Constants.ChainIdOf(name), remote).Matched? <==>
            Constants.IsDefinedNetwork(name) && Constants.ChainIdOf(name) == Some(remote)
    ensures !Constants.IsDefinedNetwork(name) ==> CheckChainId(Constants.ChainIdOf(name), remote).Mismatched?
    ensures name == "BNBChain" ==> (CheckChainId(Constants.ChainIdOf(name), remote).Matched? <==> remote == 56)
  {
  }

  // ---------------------------------------------------------------------
  // The bindings

  /** `BigInt(1e18)`: the double 1e18 is exactly 10^18, so ONE is one whole token. */
  const One: nat := 1_000_000_000_000_000_000

  /**
   * Decimals 0 through 18: the loop `for (let i = 0; i <= 18; i++)` runs
   * 19 times. (A function rather than a constant, so that the verifier
   * reasons about the helper table by its lemmas instead of unrolling it.)
   */
  function HelperCount(): nat
  {
    19
  }

  /** The name of the helper for i decimals: `e${i}`. */
  function HelperName(i: nat): string
  {
    "e" + UnitFormat.NatToString(i)
  }

  /** Different decimal counts give different helper names. */
  lemma HelperNameInjective(i: nat, j: nat)
    ensures HelperName(i) == HelperName(j) ==> i == j
  {
    if HelperName(i) == HelperName(j) {
      assert UnitFormat.NatToString(i) == HelperName(i)[1..];
    }
  }

  /** No two decimal counts share a helper name. */
  lemma HelperNamesDistinct()
    ensures forall i: nat, j: nat :: HelperName(i) == HelperName(j) ==> i == j
  {
    forall i: nat, j: nat
      ensures HelperName(i) == HelperName(j) ==> i == j
    {
      HelperNameInjective(i, j);
    }
  }

  ghost function HelperNames(k: nat): set<string>
  {
    set i | 0 <= i < k :: HelperName(i)
  }

  /** The helpers the first k iterations of the loop install: `ei` formats with i decimals. */
  function UnitHelpers(k: nat): map<string, Binding>
  {
    HelperNamesDistinct();
    map i: nat | i < k :: HelperName(i) := UnitHelper(i)
  }

  /** The global writes of the first k iterations of the loop. */
  function HelperTrace(k: nat): seq<Event>
  {
    seq(k, n requires 0 <= n => SetGlobal(HelperName(n)))
  }

  /** One more iteration adds the helper for the next decimal count. */
  lemma UnitHelpersStep(k: nat)
    ensures UnitHelpers(k + 1) == UnitHelpers(k)[HelperName(k) := UnitHelper(k)]
  {
    var after, updated := UnitHelpers(k + 1), UnitHelpers(k)[HelperName(k) := UnitHelper(k)];
    forall key | key in after
      ensures key in updated && after[key] == updated[key]
    {
      StepKeepsValue(k, key);
    }
    forall key | key in updated
      ensures key in after
    {
      StepKeepsKey(k, key);
    }
  }

  lemma StepKeepsValue(k: nat, key: string)
    requires key in UnitHelpers(k + 1)
    ensures var updated := UnitHelpers(k)[HelperName(k) := UnitHelper(k)];
            key in updated && UnitHelpers(k + 1)[key] == updated[key]
  {
    var i: nat :| i < k + 1 && key == HelperName(i);
    HelperLookup(k + 1, i);
    if i < k {
      HelperLookup(k, i);
      HelperNameInjective(i, k);
    }
  }

  lemma StepKeepsKey(k: nat, key: string)
    requires key in UnitHelpers(k)[HelperName(k) := UnitHelper(k)]
    ensures key in UnitHelpers(k + 1)
  {
    if key != HelperName(k) {
      var i: nat :| i < k && key == HelperName(i);
      HelperLookup(k + 1, i);
    } else {
      HelperLookup(k + 1, k);
    }
  }

  /** The helper for i decimals, among the first k, formats with i decimals. */
  lemma HelperLookup(k: nat, i: nat)
    requires i < k
    ensures HelperName(i) in UnitHelpers(k) && UnitHelpers(k)[HelperName(i)] == UnitHelper(i)
  {
    HelperNamesDistinct();
  }

  /** One more iteration appends one global write. */
  lemma HelperTraceStep(k: nat)
    ensures HelperTrace(k + 1) == HelperTrace(k) + [SetGlobal(HelperName(k))]
  {
  }

  /** After k iterations there are k helpers: no iteration overwrites an earlier one. */
  lemma UnitHelpersCount(k: nat)
    ensures UnitHelpers(k).Keys == HelperNames(k)
    ensures |UnitHelpers(k)| == k
  {
    var helpers := UnitHelpers(k);
    forall key | key in HelperNames(k)
      ensures key in helpers
    {
      var i :| 0 <= i < k && key == HelperName(i);
      HelperLookup(k, i);
    }
    assert helpers.Keys == HelperNames(k);
    HelperNamesCount(k);
  }

  /** The names `e0` ... `e(k-1)` are k different names. */
  lemma {:induction false} HelperNamesCount(k: nat)
    ensures |HelperNames(k)| == k
  {
    if k > 0 {
      var before, name := HelperNames(k - 1), HelperName(k - 1);
      assert |before| == k - 1 by { HelperNamesCount(k - 1); }
      assert name !in before by { NewHelperName(k - 1); }
      assert HelperNames(k) == before + {name} by { HelperNamesStep(k - 1); }
    }
  }

  lemma HelperNamesStep(k: nat)
    ensures HelperNames(k + 1) == HelperNames(k) + {HelperName(k)}
  {
    forall name | name in HelperNames(k + 1)
      ensures name in HelperNames(k) + {HelperName(k)}
    {
      var i :| 0 <= i < k + 1 && name == HelperName(i);
      if i < k {
        assert name in HelperNames(k);
      }
    }
  }

  /** The name written by iteration k was not written before. */
  lemma NewHelperName(k: nat)
    ensures HelperName(k) !in HelperNames(k)
  {
    forall i | 0 <= i < k
      ensures HelperName(i) != HelperName(k)
    {
      HelperNameInjective(i, k);
    }
  }

  /** Helper `ei` formats with i decimals: the closure captures its own `let i`. */
  lemma UnitHelpersValues(k: nat)
    ensures forall i :: 0 <= i < k ==> HelperName(i) in UnitHelpers(k) && UnitHelpers(k)[HelperName(i)] == UnitHelper(i)
  {
    HelperNamesDistinct();
  }

  /** `setVariables`: what the global object gains. */
  function VariableBindings(me: Option<Signer>): map<string, Binding>
  {
    FixedBindings(me) + UnitHelpers(HelperCount())
  }

  /** `setVariables`: the global writes, in order. */
  function VariablesTrace(): seq<Event>
  {
    [SetGlobal("me"), SetGlobal("ONE"), SetGlobal("balance")] + HelperTrace(HelperCount())
  }

  /** `me`, `ONE` and `balance` are not helper names: every helper name starts with 'e'. */
  lemma FixedNamesAreNotHelpers(k: nat)
    ensures "me" !in HelperNames(k) && "ONE" !in HelperNames(k) && "balance" !in HelperNames(k)
  {
    forall i | 0 <= i < k
      ensures HelperName(i) != "me" && HelperName(i) != "ONE" && HelperName(i) != "balance"
    {
      assert HelperName(i)[0] == 'e';
    }
  }

  /** The fixed bindings written before the loop. */
  function FixedBindings(me: Option<Signer>): map<string, Binding>
  {
    map["me" := MeBinding(me), "ONE" := BigIntBinding(One), "balance" := BalanceHelper]
  }

  lemma FixedBindingsCount(me: Option<Signer>)
    ensures FixedBindings(me).Keys == {"me", "ONE", "balance"}
    ensures |FixedBindings(me).Keys| == 3
  {
    assert |"me"| == 2 && |"ONE"| == 3 && "ONE"[0] != "balance"[0];
  }

  /** The bindings are exactly 22 names: `me`, `ONE`, `balance` and `e0` ... `e18`. */
  lemma VariableBindingsKeys(me: Option<Signer>)
    ensures VariableBindings(me).Keys == {"me", "ONE", "balance"} + HelperNames(HelperCount())
    ensures |VariableBindings(me)| == 22
  {
    var helpers := UnitHelpers(HelperCount());
    UnitHelpersCount(HelperCount());
    FixedNamesAreNotHelpers(HelperCount());
    FixedBindingsCount(me);
    assert VariableBindings(me) == FixedBindings(me) + helpers;
    assert VariableBindings(me).Keys == FixedBindings(me).Keys + helpers.Keys;
    assert FixedBindings(me).Keys !! helpers.Keys;
  }

  /** `me` is the signer, `ONE` is 10^18, `balance` is the balance helper and `ei` formats with i decimals. */
  lemma VariableBindingsValues(me: Option<Signer>)
    ensures "me" in VariableBindings(me) && VariableBindings(me)["me"] == MeBinding(me)
    ensures "ONE" in VariableBindings(me) && VariableBindings(me)["ONE"] == BigIntBinding(UnitFormat.Pow10(18))
    ensures "balance" in VariableBindings(me) && VariableBindings(me)["balance"] == BalanceHelper
    ensures forall i :: 0 <= i < HelperCount() ==>
              HelperName(i) in VariableBindings(me) && VariableBindings(me)[HelperName(i)] == UnitHelper(i)
  {
    var fixed, helpers := FixedBindings(me), UnitHelpers(HelperCount());
    FixedBindingsValues(me);
    UnitHelpersCount(HelperCount());
    UnitHelpersValues(HelperCount());
    FixedNamesAreNotHelpers(HelperCount());
    FixedBindingKept(fixed, helpers, "me");
    FixedBindingKept(fixed, helpers, "ONE");
    FixedBindingKept(fixed, helpers, "balance");
    HelperBindingsKept(fixed, helpers, HelperCount());
    UnitFormat.Pow10Of18();
  }

  lemma FixedBindingsValues(me: Option<Signer>)
    ensures "me" in FixedBindings(me) && FixedBindings(me)["me"] == MeBinding(me)
    ensures "ONE" in FixedBindings(me) && FixedBindings(me)["ONE"] == BigIntBinding(One)
    ensures "balance" in FixedBindings(me) && FixedBindings(me)["balance"] == BalanceHelper
  {
    assert |"me"| == 2 && |"ONE"| == 3 && |"balance"| == 7;
  }

  lemma FixedBindingKept(fixed: map<string, Binding>, helpers: map<string, Binding>, name: string)
    requires name in fixed && name !in helpers
    ensures name in fixed + helpers && (fixed + helpers)[name] == fixed[name]
  {
  }

  lemma HelperBindingsKept(fixed: map<string, Binding>, helpers: map<string, Binding>, k: nat)
    requires forall i :: 0 <= i < k ==> HelperName(i) in helpers && helpers[HelperName(i)] == UnitHelper(i)
    ensures forall i :: 0 <= i < k ==> HelperName(i) in fixed + helpers && (fixed + helpers)[HelperName(i)] == UnitHelper(i)
  {
  }

  /**
   * What a unit helper prints for an integer argument:
   * `new BigNumber(val.toString()).shiftedBy(-i).toFixed()`.
   */
  function UnitHelperOutput(b: Binding, val: int): (r: Option<string>)
    ensures r.Some? <==> b.UnitHelper?
  {
    if b.UnitHelper? then Some(UnitFormat.Format(val, b.decimals)) else None
  }

  /** Helper `ei` prints val / 10^i exactly, in plain notation. */
  lemma UnitHelperPrintsScaledValue(me: Option<Signer>, i: nat, val: int)
    requires i < HelperCount()
    ensures HelperName(i) in VariableBindings(me)
    ensures UnitHelperOutput(VariableBindings(me)[HelperName(i)], val).Some?
    ensures var s := UnitHelperOutput(VariableBindings(me)[HelperName(i)], val).value;
            UnitFormat.IsPlainDecimal(s) &&
            UnitFormat.ParseDecimal(s).Some? && UnitFormat.SameValue(UnitFormat.ParseDecimal(s).value, val, i)
  {
    VariableBindingsValues(me);
    UnitFormat.FormatRoundTrip(val, i);
    UnitFormat.FormatIsPlain(val, i);
  }

  /** `(await getSigners())[0]`: undefined when the list is empty. */
  function FirstSigner(signers: seq<Signer>): Option<Signer>
  {
    if signers == [] then None else Some(signers[0])
  }

  /** `addr ?? me.address`: the given address, else the signer's, else a TypeError. */
  function BalanceTarget(addr: Option<Address>, me: Option<Signer>): (r: Result<Address, Failure>)
    ensures addr.Some? ==> r == Ok(addr.value)
    ensures addr.None? && me.Some? ==> r == Ok(me.value.address)
    ensures addr.None? && me.None? ==> r == Err(SignerUndefined)
  {
    match addr
    case Some(a) => Ok(a)
    case None => if me.Some? then Ok(me.value.address) else Err(SignerUndefined)
  }

  /** The accounts after the optional override: `accounts = [privateKey]` when the file exists. */
  function AccountsAfterOverride(accounts: Option<seq<string>>, overrideKey: Option<string>): Option<seq<string>>
  {
    if overrideKey.Some? then Some([overrideKey.value]) else accounts
  }

  // ---------------------------------------------------------------------
  // The whole start-up sequence, as a specification

  datatype Run = Run(trace: seq<Event>, outcome: Outcome)

  /**
   * `main()`: the events it causes and how it ends, for a given node, an
   * optional override key, the configured accounts and chain identifier
   * and the network's name.
   */
  function Bootstrap(node: Node, overrideKey: Option<string>, accounts: Option<seq<string>>,
                     local: Option<int>, name: string): Run
  {
    var acc := AccountsAfterOverride(accounts, overrideKey);
    var prologue := Prologue(acc, overrideKey);
    match node.signers(acc)
    case Err(f) => Run(prologue + [LogError(f)], Failed(f))
    case Ok(signers) =>
      var session := Session(node, FirstSigner(signers), local, name);
      Run(prologue + VariablesTrace() + session.trace, session.outcome)
  }

  /** The events before the bindings: the optional account override, then the signer request. */
  function Prologue(acc: Option<seq<string>>, overrideKey: Option<string>): seq<Event>
  {
    OverrideEvents(overrideKey) + [GetSigners(acc)]
  }

  /** `hre.network.config.accounts = [privateKey]`, when the override file exists. */
  function OverrideEvents(overrideKey: Option<string>): seq<Event>
  {
    if overrideKey.Some? then [SetAccounts([overrideKey.value])] else []
  }

  /** `main()` when the signers cannot be obtained: the prologue, then the error. */
  lemma BootstrapFails(node: Node, overrideKey: Option<string>, accounts: Option<seq<string>>,
                       local: Option<int>, name: string)
    requires node.signers(AccountsAfterOverride(accounts, overrideKey)).Err?
    ensures var acc := AccountsAfterOverride(accounts, overrideKey);
            var f := node.signers(acc).error;
            Bootstrap(node, overrideKey, accounts, local, name) == Run(Prologue(acc, overrideKey) + [LogError(f)], Failed(f))
  {
  }

  /** `main()` once the signers are known: the prologue, the bindings, then the session. */
  lemma BootstrapContinues(node: Node, overrideKey: Option<string>, accounts: Option<seq<string>>,
                           local: Option<int>, name: string)
    requires node.signers(AccountsAfterOverride(accounts, overrideKey)).Ok?
    ensures var acc := AccountsAfterOverride(accounts, overrideKey);
            var session := Session(node, FirstSigner(node.signers(acc).value), local, name);
            Bootstrap(node, overrideKey, accounts, local, name) ==
              Run(Prologue(acc, overrideKey) + VariablesTrace() + session.trace, session.outcome)
  {
  }

  /** `main()` after `setVariables()`: the chain-id guard, the balance line and the REPL. */
  function Session(node: Node, me: Option<Signer>, local: Option<int>, name: string): Run
  {
    var checking := [GetNetwork];
    match node.chainId
    case Err(f) => Run(checking + [LogError(f)], Failed(f))
    case Ok(remote) =>
      match CheckChainId(local, remote)
      case Mismatched(l, r) => Run(checking + [LogMismatch(l, r), Exit], Exited)
      case Matched(id) =>
        var reported := checking + [LogChain(name, id)];
        match BalanceTarget(None, me)
        case Err(f) => Run(reported + [LogError(f)], Failed(f))
        case Ok(a) =>
          match node.balanceOf(a)
          case Err(f) => Run(reported + [GetBalance(a), LogError(f)], Failed(f))
          case Ok(b) =>
            Run(reported + [GetBalance(a), LogBalance(a, UnitFormat.FormatUnits(b, 18)), StartRepl], SessionStarted)
  }

  // ---------------------------------------------------------------------
  // What the start-up sequence promises

  /** `setVariables` only writes globals: 3 fixed names and one per helper. */
  lemma VariablesTraceWrites()
    ensures |VariablesTrace()| == 3 + HelperCount()
    ensures forall n :: 0 <= n < |VariablesTrace()| ==> VariablesTrace()[n].SetGlobal?
  {
    forall n | 3 <= n < |VariablesTrace()|
      ensures VariablesTrace()[n].SetGlobal?
    {
      assert VariablesTrace()[n] == HelperTrace(HelperCount())[n - 3];
    }
  }

  /** The prologue is the override write, if any, then the signer request. */
  lemma PrologueEvents(acc: Option<seq<string>>, overrideKey: Option<string>)
    ensures var p := Prologue(acc, overrideKey);
            |p| == (if overrideKey.Some? then 2 else 1) && p[|p| - 1] == GetSigners(acc) &&
            (overrideKey.Some? ==> p[0] == SetAccounts([overrideKey.value])) &&
            forall n :: 0 <= n < |p| ==> p[n].SetAccounts? || p[n].GetSigners?
  {
  }

  /** Before the session, the trace holds only the override, the signer request and global writes. */
  lemma FrontEvents(acc: Option<seq<string>>, overrideKey: Option<string>)
    ensures var front := Prologue(acc, overrideKey) + VariablesTrace();
            forall n :: 0 <= n < |front| ==> front[n].SetAccounts? || front[n].GetSigners? || front[n].SetGlobal?
  {
    PrologueEvents(acc, overrideKey);
    VariablesTraceWrites();
    var p := Prologue(acc, overrideKey);
    forall n | |p| <= n < |p| + |VariablesTrace()|
      ensures (p + VariablesTrace())[n].SetGlobal?
    {
      assert (p + VariablesTrace())[n] == VariablesTrace()[n - |p|];
    }
  }

  /** The session starts with the network query, never writes a global and queries the network once. */
  lemma SessionEvents(node: Node, me: Option<Signer>, local: Option<int>, name: string)
    ensures var t := Session(node, me, local, name).trace;
            |t| >= 2 && t[0] == GetNetwork &&
            forall n :: 0 <= n < |t| ==> !t[n].SetGlobal? && (n > 0 ==> t[n] != GetNetwork)
  {
  }

  /**
   * The REPL starts exactly when the signers are available and not empty,
   * the node reports the configured chain identifier and the signer's
   * balance can be read.
   */
  lemma {:induction false} SessionStartsOnlyOnMatch(node: Node, overrideKey: Option<string>,
                                                    accounts: Option<seq<string>>, local: Option<int>, name: string)
    ensures var acc := AccountsAfterOverride(accounts, overrideKey);
            Bootstrap(node, overrideKey, accounts, local, name).outcome == SessionStarted <==>
              node.signers(acc).Ok? && node.signers(acc).value != [] &&
              node.chainId.Ok? && local == Some(node.chainId.value) &&
              node.balanceOf(node.signers(acc).value[0].address).Ok?
  {
    if node.signers(AccountsAfterOverride(accounts, overrideKey)).Ok? {
      BootstrapContinues(node, overrideKey, accounts, local, name);
    } else {
      BootstrapFails(node, overrideKey, accounts, local, name);
    }
  }

  /**
   * A chain mismatch logs both identifiers and exits with status 0, after
   * the bindings were written and before any balance request or REPL.
   */
  lemma {:induction false} MismatchExits(node: Node, overrideKey: Option<string>,
                                         accounts: Option<seq<string>>, local: Option<int>, name: string)
    requires node.signers(AccountsAfterOverride(accounts, overrideKey)).Ok?
    requires node.chainId.Ok? && local != Some(node.chainId.value)
    ensures var run := Bootstrap(node, overrideKey, accounts, local, name);
            run.outcome == Exited && ExitStatus(run.outcome) == Some(0) &&
            |run.trace| >= 2 &&
            run.trace[|run.trace| - 2..] == [LogMismatch(local, node.chainId.value), Exit] &&
            forall n :: 0 <= n < |run.trace| ==>
              !run.trace[n].GetBalance? && !run.trace[n].LogChain? && run.trace[n] != StartRepl
  {
    var acc := AccountsAfterOverride(accounts, overrideKey);
    BootstrapContinues(node, overrideKey, accounts, local, name);
    PrologueEvents(acc, overrideKey);
    VariablesTraceWrites();
    var session := Session(node, FirstSigner(node.signers(acc).value), local, name);
    assert session.trace == [GetNetwork, LogMismatch(local, node.chainId.value), Exit];
    assert Bootstrap(node, overrideKey, accounts, local, name).trace ==
           (Prologue(acc, overrideKey) + VariablesTrace()) + session.trace;
    var front := Prologue(acc, overrideKey) + VariablesTrace();
    forall n | 0 <= n < |front|
      ensures front[n].SetAccounts? || front[n].GetSigners? || front[n].SetGlobal?
    {
      if n >= |Prologue(acc, overrideKey)| {
        assert front[n] == VariablesTrace()[n - |Prologue(acc, overrideKey)|];
      }
    }
  }

  /**
   * On the configured chain with a signer whose balance can be read, the
   * chain is reported, the signer's balance is printed with 18 decimals and
   * the REPL starts last.
   */
  lemma {:induction false} SessionOnMatch(node: Node, overrideKey: Option<string>,
                                          accounts: Option<seq<string>>, local: Option<int>, name: string)
    requires node.signers(AccountsAfterOverride(accounts, overrideKey)).Ok?
    requires node.signers(AccountsAfterOverride(accounts, overrideKey)).value != []
    requires node.chainId.Ok? && local == Some(node.chainId.value)
    requires node.balanceOf(node.signers(AccountsAfterOverride(accounts, overrideKey)).value[0].address).Ok?
    ensures var run := Bootstrap(node, overrideKey, accounts, local, name);
            var a := node.signers(AccountsAfterOverride(accounts, overrideKey)).value[0].address;
            var b := node.balanceOf(a).value;
            run.outcome == SessionStarted && ExitStatus(run.outcome) == None &&
            |run.trace| >= 4 &&
            run.trace[|run.trace| - 4..] ==
              [LogChain(name, node.chainId.value), GetBalance(a), LogBalance(a, UnitFormat.FormatUnits(b, 18)), StartRepl]
  {
    BootstrapContinues(node, overrideKey, accounts, local, name);
  }

  /**
   * With no signer, the session fails with a TypeError once the chain is
   * accepted: the balance is never requested and the exit status is 1.
   */
  lemma {:induction false} NoSignerFails(node: Node, overrideKey: Option<string>,
                                         accounts: Option<seq<string>>, local: Option<int>, name: string)
    requires node.signers(AccountsAfterOverride(accounts, overrideKey)) == Ok([])
    requires node.chainId.Ok? && local == Some(node.chainId.value)
    ensures var run := Bootstrap(node, overrideKey, accounts, local, name);
            run.outcome == Failed(SignerUndefined) && ExitStatus(run.outcome) == Some(1) &&
            |run.trace| >= 2 &&
            run.trace[|run.trace| - 2..] == [LogChain(name, node.chainId.value), LogError(SignerUndefined)] &&
            forall n :: 0 <= n < |run.trace| ==> !run.trace[n].GetBalance? && run.trace[n] != StartRepl
  {
    var acc := AccountsAfterOverride(accounts, overrideKey);
    BootstrapContinues(node, overrideKey, accounts, local, name);
    FrontEvents(acc, overrideKey);
    var session := Session(node, None, local, name);
    assert session.trace == [GetNetwork, LogChain(name, node.chainId.value), LogError(SignerUndefined)];
    var front := Prologue(acc, overrideKey) + VariablesTrace();
    var t := Bootstrap(node, overrideKey, accounts, local, name).trace;
    assert t == front + session.trace;
    forall n | 0 <= n < |t|
      ensures !t[n].GetBalance? && t[n] != StartRepl
    {
      if n < |front| {
        assert t[n] == front[n];
      } else {
        assert t[n] == session.trace[n - |front|];
      }
    }
    assert t[|t| - 2..] == session.trace[1..];
  }

  /** When the signers cannot be obtained, nothing is bound, the network is not queried and the exit status is 1. */
  lemma {:induction false} SignerFailureStops(node: Node, overrideKey: Option<string>,
                                              accounts: Option<seq<string>>, local: Option<int>, name: string)
    requires node.signers(AccountsAfterOverride(accounts, overrideKey)).Err?
    ensures var acc := AccountsAfterOverride(accounts, overrideKey);
            var f := node.signers(acc).error;
            var run := Bootstrap(node, overrideKey, accounts, local, name);
            run.outcome == Failed(f) && ExitStatus(run.outcome) == Some(1) &&
            run.trace == Prologue(acc, overrideKey) + [LogError(f)] &&
            forall n :: 0 <= n < |run.trace| ==> !run.trace[n].SetGlobal? && run.trace[n] != GetNetwork
  {
    BootstrapFails(node, overrideKey, accounts, local, name);
    PrologueEvents(AccountsAfterOverride(accounts, overrideKey), overrideKey);
  }

  /** The override key is installed before the signers are requested, and the request uses it. */
  lemma {:induction false} OverrideComesFirst(node: Node, overrideKey: Option<string>,
                                              accounts: Option<seq<string>>, local: Option<int>, name: string)
    ensures var t := Bootstrap(node, overrideKey, accounts, local, name).trace;
            if overrideKey.Some? then
              |t| >= 2 && t[0] == SetAccounts([overrideKey.value]) && t[1] == GetSigners(Some([overrideKey.value]))
            else
              |t| >= 1 && t[0] == GetSigners(accounts)
  {
    var acc := AccountsAfterOverride(accounts, overrideKey);
    if node.signers(AccountsAfterOverride(accounts, overrideKey)).Ok? {
      BootstrapContinues(node, overrideKey, accounts, local, name);
    } else {
      BootstrapFails(node, overrideKey, accounts, local, name);
    }
    PrologueEvents(acc, overrideKey);
    var t := Bootstrap(node, overrideKey, accounts, local, name).trace;
    var p := Prologue(acc, overrideKey);
    assert t[..|p|] == p;
  }

  /**
   * Every global is written before the network is queried: the bindings
   * exist even when the guard then rejects the chain.
   */
  lemma {:induction false} BindingsBeforeGuard(node: Node, overrideKey: Option<string>,
                                               accounts: Option<seq<string>>, local: Option<int>, name: string)
    requires node.signers(AccountsAfterOverride(accounts, overrideKey)).Ok?
    ensures var t := Bootstrap(node, overrideKey, accounts, local, name).trace;
            var p := |Prologue(AccountsAfterOverride(accounts, overrideKey), overrideKey)|;
            p + |VariablesTrace()| < |t| &&
            t[p..p + |VariablesTrace()|] == VariablesTrace() && t[p + |VariablesTrace()|] == GetNetwork &&
            forall i, j :: 0 <= i < |t| && 0 <= j < |t| && t[i].SetGlobal? && t[j] == GetNetwork ==> i < j
  {
    var acc := AccountsAfterOverride(accounts, overrideKey);
    BootstrapContinues(node, overrideKey, accounts, local, name);
    PrologueEvents(acc, overrideKey);
    VariablesTraceWrites();
    var pro := Prologue(acc, overrideKey);
    var session := Session(node, FirstSigner(node.signers(acc).value), local, name);
    SessionEvents(node, FirstSigner(node.signers(acc).value), local, name);
    var t := Bootstrap(node, overrideKey, accounts, local, name).trace;
    var k := |pro| + |VariablesTrace()|;
    assert t == pro + VariablesTrace() + session.trace;
    forall n | 0 <= n < |pro|
      ensures !t[n].SetGlobal? && t[n] != GetNetwork
    {
      assert t[n] == pro[n];
    }
    forall n | |pro| <= n < k
      ensures t[n].SetGlobal?
    {
      assert t[n] == VariablesTrace()[n - |pro|];
    }
    forall n | k <= n < |t|
      ensures !t[n].SetGlobal? && (n > k ==> t[n] != GetNetwork)
    {
      assert t[n] == session.trace[n - k];
    }
  }

  // ---------------------------------------------------------------------
  // The console's state and its operations

  lemma UpdateUnion<K, V>(a: map<K, V>, b: map<K, V>, k: K, v: V)
    ensures (a + b)[k := v] == a + b[k := v]
  {
  }

  lemma UnionAssociates<K, V>(a: map<K, V>, b: map<K, V>, c: map<K, V>)
    ensures (a + b) + c == a + (b + c)
  {
  }

  lemma UpdatesAsUnion<K, V>(m: map<K, V>, a: K, b: K, c: K, va: V, vb: V, vc: V)
    ensures m[a := va][b := vb][c := vc] == m + map[a := va, b := vb, c := vc]
  {
  }

  lemma ConcatAssociates<T>(a: seq<T>, b: seq<T>, c: seq<T>)
    ensures (a + b) + c == a + (b + c)
  {
  }

  class Console {
    var accounts: Option<seq<string>>   // hre.network.config.accounts
    const networkName: string           // hre.network.name
    const localChainId: Option<int>     // hre.network.config.chainId
    var me: Option<Signer>              // the module-level `me`
    var globals: map<string, Binding>   // the global object
    var trace: seq<Event>

    /** The state before `main()` runs, for the selected network's configuration. */
    constructor (name: string, net: HardhatConfig.NetworkUserConfig, hostGlobals: map<string, Binding>)
      ensures networkName == name && localChainId == net.chainId && accounts == net.accounts
      ensures me == None && globals == hostGlobals && trace == []
    {
      networkName := name;
      localChainId := net.chainId;
      accounts := net.accounts;
      me := None;
      globals := hostGlobals;
      trace := [];
    }

    /** `setVariables()`: acquire the signer, then write the bindings into the global object. */
    method SetVariables(node: Node) returns (failure: Option<Failure>)
      modifies this`me, this`globals, this`trace
      ensures node.signers(accounts).Err? ==>
                failure == Some(node.signers(accounts).error) && me == old(me) && globals == old(globals) &&
                trace == old(trace) + [GetSigners(accounts)]
      ensures node.signers(accounts).Ok? ==>
                failure == None && me == FirstSigner(node.signers(accounts).value) &&
                globals == old(globals) + VariableBindings(me) &&
                trace == old(trace) + [GetSigners(accounts)] + VariablesTrace()
    {
      trace := trace + [GetSigners(accounts)];
      var reply := node.signers(accounts);
      if reply.Err? {
        return Some(reply.error);
      }
      WriteBindings(FirstSigner(reply.value));
      failure := None;
    }

    /** The global writes of `setVariables`, once the signer is known. */
    method WriteBindings(signer: Option<Signer>)
      modifies this`me, this`globals, this`trace
      ensures me == signer
      ensures globals == old(globals) + VariableBindings(signer)
      ensures trace == old(trace) + VariablesTrace()
    {
      me := signer;
      ghost var host := globals;
      globals := globals["me" := MeBinding(me)];
      globals := globals["ONE" := BigIntBinding(One)];
      globals := globals["balance" := BalanceHelper];
      UpdatesAsUnion(host, "me", "ONE", "balance", MeBinding(signer), BigIntBinding(One), BalanceHelper);
      var fixedWrites := [SetGlobal("me"), SetGlobal("ONE"), SetGlobal("balance")];
      ghost var before := trace;
      trace := trace + fixedWrites;
      InstallUnitHelpers();
      UnionAssociates(old(globals), FixedBindings(signer), UnitHelpers(HelperCount()));
      ConcatAssociates(before, fixedWrites, HelperTrace(HelperCount()));
    }

    /** The loop of `setVariables`: `global[`e${i}`] = ...` for i = 0 to 18. */
    method InstallUnitHelpers()
      modifies this`globals, this`trace
      ensures globals == old(globals) + UnitHelpers(HelperCount())
      ensures trace == old(trace) + HelperTrace(HelperCount())
    {
      for i := 0 to HelperCount()
        invariant globals == old(globals) + UnitHelpers(i)
        invariant trace == old(trace) + HelperTrace(i)
      {
        UpdateUnion(old(globals), UnitHelpers(i), HelperName(i), UnitHelper(i));
        UnitHelpersStep(i);
        HelperTraceStep(i);
        globals := globals[HelperName(i) := UnitHelper(i)];
        trace := trace + [SetGlobal(HelperName(i))];
      }
    }

    /** `getNativeTokenBalance(addr?)`: query a balance and format it with 18 decimals. */
    method GetNativeTokenBalance(node: Node, addr: Option<Address>) returns (r: Result<(Address, string), Failure>)
      modifies this`trace
      ensures BalanceTarget(addr, me).Err? ==> r == Err(SignerUndefined) && trace == old(trace)
      ensures BalanceTarget(addr, me).Ok? ==>
                var a := BalanceTarget(addr, me).value;
                trace == old(trace) + [GetBalance(a)] &&
                r == match node.balanceOf(a)
                     case Ok(b) => Ok((a, UnitFormat.FormatUnits(b, 18)))
                     case Err(f) => Err(f)
    {
      var target := BalanceTarget(addr, me);
      if target.Err? {
        return Err(target.error);
      }
      var a := target.value;
      trace := trace + [GetBalance(a)];
      var raw := node.balanceOf(a);
      if raw.Err? {
        return Err(raw.error);
      }
      r := Ok((a, UnitFormat.FormatUnits(raw.value, 18)));
    }

    /** The `balance(addr?)` binding: query, then print `<addr> native token balance: <balance>`. */
    method Balance(node: Node, addr: Option<Address>) returns (failure: Option<Failure>)
      modifies this`trace
      ensures BalanceTarget(addr, me).Err? ==> failure == Some(SignerUndefined) && trace == old(trace)
      ensures BalanceTarget(addr, me).Ok? ==>
                var a := BalanceTarget(addr, me).value;
                match node.balanceOf(a)
                case Ok(b) =>
                  failure == None &&
                  trace == old(trace) + [GetBalance(a), LogAddressBalance(a, UnitFormat.FormatUnits(b, 18))]
                case Err(f) => failure == Some(f) && trace == old(trace) + [GetBalance(a)]
    {
      var r := GetNativeTokenBalance(node, addr);
      if r.Err? {
        return Some(r.error);
      }
      trace := trace + [LogAddressBalance(r.value.0, r.value.1)];
      failure := None;
    }

    /** Calling a unit helper binding `e<i>(val)`: print val shifted by i decimals. */
    method CallUnitHelper(name: string, val: int) returns (printed: Option<string>)
      modifies this`trace
      ensures printed == (if name in globals then UnitHelperOutput(globals[name], val) else None)
      ensures printed.Some? ==> trace == old(trace) + [LogValue(printed.value)]
      ensures printed.None? ==> trace == old(trace)
    {
      printed := None;
      if name in globals && globals[name].UnitHelper? {
        var readable := UnitFormat.Format(val, globals[name].decimals);
        trace := trace + [LogValue(readable)];
        printed := Some(readable);
      }
    }

    /** `main()` together with its catch handler. */
    method Start(node: Node, overrideKey: Option<string>) returns (outcome: Outcome)
      modifies this`accounts, this`me, this`globals, this`trace
      ensures var run := Bootstrap(node, overrideKey, old(accounts), localChainId, networkName);
              trace == old(trace) + run.trace && outcome == run.outcome
      ensures accounts == AccountsAfterOverride(old(accounts), overrideKey)
      ensures node.signers(accounts).Ok? ==>
                me == FirstSigner(node.signers(accounts).value) && globals == old(globals) + VariableBindings(me)
      ensures node.signers(accounts).Err? ==> me == old(me) && globals == old(globals)
    {
      ghost var start, configured := trace, accounts;
      OverrideAccounts(overrideKey);
      outcome := Launch(node);
      ghost var prologue := Prologue(accounts, overrideKey);
      ConcatAssociates(start, OverrideEvents(overrideKey), [GetSigners(accounts)]);
      if node.signers(accounts).Err? {
        var f := node.signers(accounts).error;
        BootstrapFails(node, overrideKey, configured, localChainId, networkName);
        ConcatAssociates(start, prologue, [LogError(f)]);
      } else {
        BootstrapContinues(node, overrideKey, configured, localChainId, networkName);
        ghost var session := Session(node, me, localChainId, networkName);
        ConcatAssociates(start, prologue, VariablesTrace());
        ConcatAssociates(start + prologue, VariablesTrace(), session.trace);
        ConcatAssociates(start, prologue + VariablesTrace(), session.trace);
      }
    }

    /** `main()` from `await setVariables()` on, together with its catch handler. */
    method Launch(node: Node) returns (outcome: Outcome)
      modifies this`me, this`globals, this`trace
      ensures node.signers(accounts).Err? ==>
                var f := node.signers(accounts).error;
                outcome == Failed(f) && trace == old(trace) + [GetSigners(accounts)] + [LogError(f)] &&
                me == old(me) && globals == old(globals)
      ensures node.signers(accounts).Ok? ==>
                var run := Session(node, me, localChainId, networkName);
                me == FirstSigner(node.signers(accounts).value) && globals == old(globals) + VariableBindings(me) &&
                trace == old(trace) + [GetSigners(accounts)] + VariablesTrace() + run.trace && outcome == run.outcome
    {
      var failure := SetVariables(node);
      if failure.Some? {
        trace := trace + [LogError(failure.value)];
        return Failed(failure.value);
      }
      outcome := RunSession(node);
    }

    /** The override step of `main()`: `hre.network.config.accounts = [privateKey]` when a key file exists. */
    method OverrideAccounts(overrideKey: Option<string>)
      modifies this`accounts, this`trace
      ensures accounts == AccountsAfterOverride(old(accounts), overrideKey)
      ensures trace == old(trace) + OverrideEvents(overrideKey)
    {
      if overrideKey.Some? {
        accounts := Some([overrideKey.value]);
        trace := trace + [SetAccounts([overrideKey.value])];
      }
    }

    /** `main()` from the network query on: the guard, then the balance line and the REPL. */
    method RunSession(node: Node) returns (outcome: Outcome)
      modifies this`trace
      ensures var run := Session(node, me, localChainId, networkName);
              trace == old(trace) + run.trace && outcome == run.outcome
    {
      ghost var start := trace;
      var checking := [GetNetwork];
      trace := trace + checking;
      var reply := node.chainId;
      if reply.Err? {
        trace := trace + [LogError(reply.error)];
        ConcatAssociates(start, checking, [LogError(reply.error)]);
        return Failed(reply.error);
      }
      var remote := reply.value;
      if CheckChainId(localChainId, remote).Mismatched? {
        trace := trace + [LogMismatch(localChainId, remote), Exit];
        ConcatAssociates(start, checking, [LogMismatch(localChainId, remote), Exit]);
        return Exited;
      }
      var reported := checking + [LogChain(networkName, remote)];
      trace := trace + [LogChain(networkName, remote)];
      ConcatAssociates(start, checking, [LogChain(networkName, remote)]);
      var balance := GetNativeTokenBalance(node, None);
      ghost var a := BalanceTarget(None, me);
      if balance.Err? {
        trace := trace + [LogError(balance.error)];
        if a.Err? {
          ConcatAssociates(start, reported, [LogError(balance.error)]);
        } else {
          ConcatAssociates(start, reported, [GetBalance(a.value)]);
          ConcatAssociates(start, reported + [GetBalance(a.value)], [LogError(balance.error)]);
          ConcatAssociates(reported, [GetBalance(a.value)], [LogError(balance.error)]);
        }
        return Failed(balance.error);
      }
      ConcatAssociates(start, reported, [GetBalance(a.value)]);
      trace := trace + [LogBalance(balance.value.0, balance.value.1), StartRepl];
      ConcatAssociates(start, reported + [GetBalance(a.value)], [LogBalance(balance.value.0, balance.value.1), StartRepl]);
      ConcatAssociates(reported, [GetBalance(a.value)], [LogBalance(balance.value.0, balance.value.1), StartRepl]);
      outcome := SessionStarted;
    }
  }
}
