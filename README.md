# Interactive console start-up, as a Dafny model

This project models the decision logic of a small Hardhat developer tool for
BNB Chain. The tool has three parts:

- `constants.ts` holds the known networks: the `chainID` enum (BNBChain = 56,
  BNBChainTestnet = 97), the `chain` enum of network names, the set of
  main networks, and the predicates `isDefinedNetwork` and `isMainnet`.
  The model is module `Constants`.
- `hardhat.config.ts` reads `.private_key` if it exists and strips every
  whitespace character from it. It then completes every network in the
  configuration except `hardhat`: each gets the chain identifier the
  `chainID` enum holds under its name and, when the key is not empty, the
  key as its only account. The model is module `HardhatConfig`. Its class
  `HardhatUserConfig` holds the networks table that the loop updates in place.
- `scripts/console.ts` is the console itself, in module `Console`. It runs
  these steps in order:
  1. install the override key from `importPrivateKey.ts`;
  2. take the first signer;
  3. write `me`, `ONE`, `balance` and `e0` … `e18` into the global object;
  4. compare the node's chain identifier with the configured one, and exit
     on a mismatch;
  5. print the chain and the signer's balance;
  6. start the REPL.

  Any rejection reaches the catch handler, which logs the error and sets
  exit status 1. Class `Console.Console` holds the script's mutable state:
  the network's accounts, `me`, the global object and the observable
  events so far. Function `Console.Bootstrap` states the whole sequence
  as a value. `Console.Console.Start` is proved to follow it, and the
  lemmas about `Bootstrap` state what the sequence promises.
- The formatter `new BigNumber(val.toString()).shiftedBy(-d).toFixed()`
  is in module `UnitFormat`. It is used by the balance report with d = 18
  and by the `e<d>` helpers. The model works on integers and renders
  val / 10^d exactly in plain notation: no exponent, no trailing zeros,
  and no point when the fraction is zero. `ParseDecimal` is an
  independent reader of decimal strings. The formatter is proved against
  it: the output reads back to exactly val / 10^d, and it is the only
  plain string that does.

The remote node, the signer subsystem, the file system and the REPL are
foreign to the model. A `Console.Node` value carries the node's replies.
File contents are `Option<string>` parameters, with None meaning the file
does not exist. Every observable step (a request, a global write, a line
printed, the exit, the REPL start) is recorded as a `Console.Event`, so
that the order of the steps can be stated.

### Behaviour worth knowing

- **The globals are written before the chain check.** `setVariables()`
  runs before the network is queried (scripts/console.ts:20-25), so `me`,
  `ONE`, `balance` and `e0` … `e18` exist even when the check then fails;
  see `Console.BindingsBeforeGuard`.
- **A chain mismatch exits with status 0.** `process.exit()` is called
  without a code, and nothing has set `process.exitCode` by then
  (scripts/console.ts:27); see `Console.MismatchExits`.
- **An empty signer list fails only at `me.address`.** `me` becomes
  undefined at scripts/console.ts:40 and nothing checks it. The run fails
  once the chain has been accepted, with a TypeError at `me.address`
  (scripts/console.ts:58); see `Console.NoSignerFails`.

## Model

| member | source | states |
|---|---|---|
| Constants.IsDefinedNetwork | constants.ts:20-22 | `Object.values(chain).includes(net)`; `Constants.DefinedNetworks` states it holds exactly for the two network names, `Constants.MainnetIsDefined` that it covers every main network |
| Constants.IsMainnet | constants.ts:24-26 | `mainnets.has(net)`; `Constants.MainnetNetworks` states it holds exactly for "BNBChain", `Constants.TestnetIsNotMainnet` that the test network is excluded |
| Constants.ChainIdOf | constants.ts:1-7 | `chainID[net]` is defined exactly for the defined networks; it is 56 exactly for "BNBChain" and 97 exactly for "BNBChainTestnet" |
| Constants.DefinedNetworks | constants.ts:20-22 | `isDefinedNetwork(net)` holds exactly for "BNBChain" and "BNBChainTestnet" (exact, case-sensitive) |
| Constants.MainnetNetworks | constants.ts:24-26 | `isMainnet(net)` holds exactly for "BNBChain" |
| Constants.MainnetIsDefined | constants.ts:16-22 | every main network is a defined network |
| Constants.TestnetIsNotMainnet | constants.ts:14-18 | the test network is defined but not a main network |
| Constants.ChainIdsDistinct | constants.ts:1-7 | the identifiers are 56 and 97, and no two networks share one |
| Constants.EveryChainHasId | constants.ts:1-15 | the two enums have the same member names, every `chain` member names itself and has a chain identifier |
| HardhatConfig.IsWhitespace | hardhat.config.ts:13 | the ECMAScript `\s` class: WhiteSpace and LineTerminator code points; `HardhatConfig.StripLeavesNoWhitespace`, `HardhatConfig.DropsWhitespaceInPlace` and `HardhatConfig.KeepsCharacterInPlace` state what the replace does with each class |
| HardhatConfig.StripWhitespace | hardhat.config.ts:13 | the replace never makes the key longer |
| HardhatConfig.StripLeavesNoWhitespace | hardhat.config.ts:13 | no `\s` character survives the replace |
| HardhatConfig.StripConcat | hardhat.config.ts:13 | the global replace distributes over concatenation |
| HardhatConfig.KeepsCharacterInPlace | hardhat.config.ts:13 | a non-whitespace character stays, in place between what its two sides strip to |
| HardhatConfig.DropsWhitespaceInPlace | hardhat.config.ts:13 | a whitespace character is removed and its two sides join up |
| HardhatConfig.StripKeepsCounts | hardhat.config.ts:13 | every non-whitespace character occurs as often after the replace as before |
| HardhatConfig.StripClean | hardhat.config.ts:13 | a string without whitespace is unchanged |
| HardhatConfig.StripIdempotent | hardhat.config.ts:13 | stripping twice is stripping once |
| HardhatConfig.LoadPrivateKey | hardhat.config.ts:8-14 | the key is "" when the file is absent; otherwise it is the file's text stripped of whitespace; it never holds whitespace |
| HardhatConfig.HardhatUserConfig.constructor | hardhat.config.ts:39-43 | the networks table as written: BNBChain with its RPC URL, no chain identifier and no accounts |
| HardhatConfig.HardhatUserConfig.ApplyNetworkDefaults | hardhat.config.ts:55-63 | same network names; `hardhat` untouched; URLs unchanged; every other network gets `chainID[net]` (undefined for unknown names); its accounts become `[key]` when the key is not empty and stay as they were otherwise |
| HardhatConfig.CompletedEntry | hardhat.config.ts:58-62 | one iteration of the loop on one entry; `HardhatConfig.HardhatUserConfig.ApplyNetworkDefaults` states the table after the loop field by field: URL kept, `chainID[net]`, accounts `[key]` when the key is not empty |
| HardhatConfig.LoadConfig | hardhat.config.ts:8-63 | the final table: BNBChain with its URL, chain identifier 56, and accounts `[key]` exactly when the stripped key is not empty |
| UnitFormat.NatToString | scripts/console.ts:51 | `toString()` of a natural number: non-empty digits that denote it, with no leading zero except for 0 itself |
| UnitFormat.FormatUnits | scripts/console.ts:60 | `BigNumber(n).shiftedBy(-d).toFixed()` for a natural amount; specified by `UnitFormat.FormatUnitsCharacterised` (the output is exactly the plain string that reads back as n / 10^d) and the lemmas below |
| UnitFormat.FormatUnitsRoundTrip | scripts/console.ts:60 | the formatted balance reads back as exactly n / 10^d |
| UnitFormat.FormatUnitsIsPlain | scripts/console.ts:60 | the formatted balance is plain notation: canonical integer part, and no point unless a significant fraction digit follows |
| UnitFormat.FormatUnitsUnique | scripts/console.ts:60 | any plain string that reads back as n / 10^d is the formatted string |
| UnitFormat.FormatUnitsCharacterised | scripts/console.ts:60 | s is the formatted string if and only if s is plain and reads back as n / 10^d |
| UnitFormat.FormatUnitsLeadingZero | scripts/console.ts:60 | the output starts with '0' exactly when the amount is below one whole unit, and then it is "0" or starts with "0." |
| UnitFormat.FormatUnitsZero | scripts/console.ts:60 | the output is "0" exactly for the amount zero |
| UnitFormat.FormatUnitsNoDecimals | scripts/console.ts:49-51 | with 0 decimals (helper `e0`) the output is the plain decimal rendering of the amount |
| UnitFormat.FormatOneToken | scripts/console.ts:60 | 10^18 smallest units render as "1" |
| UnitFormat.FormatSmallestUnit | scripts/console.ts:60 | one smallest unit at d ≥ 1 decimals renders as "0.", then d - 1 zeros, then "1" |
| UnitFormat.FormatOneAndAHalf | scripts/console.ts:60 | 1.5 × 10^18 smallest units render as "1.5": trailing zeros are dropped |
| UnitFormat.Format | scripts/console.ts:51 | the same for any integer, with BigNumber's '-' in front of a negative amount; specified by `UnitFormat.FormatRoundTrip`, `UnitFormat.FormatIsPlain` and `UnitFormat.FormatInjective` |
| UnitFormat.FormatRoundTrip | scripts/console.ts:51 | a helper's output for any integer, negative ones included, reads back as exactly val / 10^d |
| UnitFormat.FormatIsPlain | scripts/console.ts:51 | every output, negative ones included, is plain notation and never "-0" |
| UnitFormat.PlainCharacters | scripts/console.ts:51 | plain notation is non-empty and uses only digits, at most one '.', and '-' only in front: it has no exponent |
| UnitFormat.FormatInjective | scripts/console.ts:51 | distinct amounts never print the same string at the same decimals |
| Console.ExitStatus | scripts/console.ts:27 | the process's exit status: 0 after `process.exit()` on a mismatch, 1 after the catch handler (scripts/console.ts:68-71), none while the REPL runs; `Console.MismatchExits`, `Console.NoSignerFails`, `Console.SignerFailureStops` and `Console.SessionOnMatch` state which run ends how |
| Console.CheckChainId | scripts/console.ts:24-28 | the check passes if and only if a local identifier is configured and equals the remote one |
| Console.GuardOnConfiguredNetwork | scripts/console.ts:24-25 | for a network the loop in hardhat.config.ts completes (every configured name except `hardhat`), a name `chainID` does not know always fails the check; BNBChain passes exactly when the node reports 56 |
| Console.HelperName | scripts/console.ts:50 | the name `e${i}`; `Console.HelperNameInjective` states that different decimal counts give different names |
| Console.HelperNameInjective | scripts/console.ts:50 | different decimal counts give different names `e${i}` |
| Console.HelperNamesCount | scripts/console.ts:49-50 | the loop's names `e0` … `e18` are 19 distinct names |
| Console.UnitHelpersCount | scripts/console.ts:49-54 | the helper table has exactly the names `e0` … `e(k-1)`, k of them |
| Console.UnitHelpersValues | scripts/console.ts:49-53 | `e${i}` is bound to the helper for i decimals, for every i in range |
| Console.UnitHelpersStep | scripts/console.ts:49-50 | one more loop iteration adds exactly the binding `e${k}` |
| Console.VariableBindingsKeys | scripts/console.ts:39-55 | `setVariables` binds exactly `me`, `ONE`, `balance` and `e0` … `e18`: 22 names |
| Console.VariableBindingsValues | scripts/console.ts:40-54 | `me` is the signer, `ONE` is 10^18, `balance` is the balance helper, and `e${i}` is the helper for i decimals |
| Console.VariablesTraceWrites | scripts/console.ts:39-55 | after the signer request, `setVariables` does nothing observable but the 22 global writes |
| Console.UnitHelperOutput | scripts/console.ts:50-52 | only a unit-helper binding prints a value |
| Console.UnitHelperPrintsScaledValue | scripts/console.ts:50-52 | `e${i}(val)` prints val / 10^i exactly, in plain notation |
| Console.FirstSigner | scripts/console.ts:40 | `(await getSigners())[0]`, undefined for an empty list; `Console.Console.SetVariables` stores it in `me`, and `Console.NoSignerFails` states what an undefined `me` leads to |
| Console.AccountsAfterOverride | scripts/console.ts:15-17 | the accounts after the override: `[privateKey]` when the file exists, the configured ones otherwise; `Console.OverrideComesFirst` states that the signer request uses them |
| Console.BalanceTarget | scripts/console.ts:58 | `addr ?? me.address`: the given address; else the signer's; else a TypeError |
| Console.Bootstrap | scripts/console.ts:13-37 | `main()` with its catch handler as a run (events and outcome); `Console.Console.Start` is proved to follow it, and `Console.SessionStartsOnlyOnMatch`, `Console.OverrideComesFirst`, `Console.BindingsBeforeGuard`, `Console.MismatchExits`, `Console.SessionOnMatch`, `Console.NoSignerFails` and `Console.SignerFailureStops` state its properties |
| Console.Session | scripts/console.ts:22-36 | `main()` from the network query on; `Console.Console.RunSession` is proved to follow it, and `Console.SessionEvents` states that it queries the network first and once and writes no global |
| Console.PrologueEvents | scripts/console.ts:14-20 | before the bindings there is only the override write (when the key file exists), then the signer request |
| Console.FrontEvents | scripts/console.ts:13-20 | before the network query there are only the override, the signer request and global writes |
| Console.SessionEvents | scripts/console.ts:22-35 | after the bindings, the network is queried first and only once, and no global is written |
| Console.BootstrapFails | scripts/console.ts:39-40 | when the signer request fails, the run is the prologue, then the logged error, ending in that failure |
| Console.BootstrapContinues | scripts/console.ts:20-35 | when the signer request succeeds, the run is the prologue, then the 22 writes, then the session |
| Console.SessionStartsOnlyOnMatch | scripts/console.ts:13-37 | the REPL starts if and only if signers exist, the node reports the configured chain identifier, and the signer's balance can be read |
| Console.MismatchExits | scripts/console.ts:24-28 | on a mismatch both identifiers are logged, then the exit follows with status 0; no balance request, chain line or REPL happens |
| Console.SessionOnMatch | scripts/console.ts:30-35 | on a match the run ends: chain line, balance request for the signer, balance line with 18 decimals, REPL; no exit status |
| Console.NoSignerFails | scripts/console.ts:58 | with no signer and a matching chain, the chain line is followed by the TypeError; status 1; no balance request and no REPL |
| Console.SignerFailureStops | scripts/console.ts:68-71 | when the signers cannot be read, the error is logged and the status is 1; nothing is bound and the network is not queried |
| Console.OverrideComesFirst | scripts/console.ts:14-20 | the override key is installed before the signer request, and the request uses it |
| Console.BindingsBeforeGuard | scripts/console.ts:20-25 | all 22 global writes come immediately before the network query, and every write precedes it |
| Console.Console.constructor | scripts/console.ts:8-11 | the state before `main()`: the selected network's name, chain identifier and accounts; no signer; the host's globals; nothing done yet |
| Console.Console.Start | scripts/console.ts:13-37 | `main()` with its catch handler follows `Bootstrap` event by event and ends with its outcome; the accounts are the overridden ones; when the signers are read, `me` is the first signer and the globals gain exactly the 22 bindings, and otherwise `me` and the globals are unchanged |
| Console.Console.Launch | scripts/console.ts:20-36 | `main()` from `await setVariables()` on, with the catch handler: a failed signer request is logged and ends the run with nothing bound; otherwise `me` is the first signer, the 22 bindings are written, and the run goes on as `Session` |
| Console.Console.OverrideAccounts | scripts/console.ts:14-18 | accounts become `[key]` exactly when the key file exists, and the write is recorded |
| Console.Console.SetVariables | scripts/console.ts:39-55 | on a signer failure, only the request is recorded and the failure returned; otherwise `me` is the first signer or undefined, the globals gain the 22 bindings, and the writes are recorded |
| Console.Console.WriteBindings | scripts/console.ts:41-54 | the globals gain exactly `me`, `ONE`, `balance` and the 19 helpers, written in that order |
| Console.Console.InstallUnitHelpers | scripts/console.ts:49-54 | the loop adds `e0` … `e18` in increasing order, one write each |
| Console.Console.RunSession | scripts/console.ts:22-36 | from the network query on, the method follows `Session`: guard, chain line, balance line, REPL, or the failure or exit on the way |
| Console.Console.GetNativeTokenBalance | scripts/console.ts:57-66 | queries the address `addr ?? me.address` and returns it with the balance formatted at 18 decimals; it fails with a TypeError and no request when neither address exists, and passes a failed request's error through |
| Console.Console.Balance | scripts/console.ts:44-47 | the `balance(addr?)` binding prints `<addr> native token balance: <balance>` for that address; it prints nothing on a failure |
| Console.Console.CallUnitHelper | scripts/console.ts:50-53 | calling a global prints exactly when it is a unit helper, and prints val shifted by that helper's decimals |

## Left out

- The remote node, `hre.ethers.getSigners()` and the RPC provider are foreign. They are a `Node` value of replies, each an Ok or a failure.
- The file system: `existsSync`/`readFileSync` of `.private_key` and the `require` of `importPrivateKey.ts` become `Option<string>` inputs.
- A failing load of the override module is not modelled. When `importPrivateKey.ts` exists but its `require` throws, `main()` rejects before the signer request and the catch handler sets status 1 (scripts/console.ts:15-16, 68-71).
- The override module's `privateKey` export is modelled as a string. A missing or non-string export, which the script would install unchecked, is not modelled.
- `require("repl").start()` and `global = repl.context` are one `StartRepl` event. The REPL's behaviour afterwards is not modelled.
- Asynchrony: every `await` is taken to complete in program order. Hangs and timeouts are not modelled.
- Printed lines are structured events carrying their values, not the text the template literals build.
- `console.error(error)` prints the error object. The model records only which failure it was.
- The numeric enum's reverse mapping (`chainID["56"]` is "BNBChain") and inherited prototype keys are not modelled. `chainID[net]` is only defined for the enum's declared member names.
- The built-in `hardhat` network's chain identifier comes from Hardhat's defaults (31337), not from `chainID`, and is not modelled. The loop skips that network (hardhat.config.ts:56), so `Console.GuardOnConfiguredNetwork` covers only the networks the loop completes.
- `BigInt(localChainID)`: a configured chain identifier that is not an integer is not modelled.
- UnitFormat.Format: takes integer arguments only. A helper called with a fractional or non-numeric value, which BigNumber would read or reject, is not modelled.
- BigNumber's own configuration (DECIMAL_PLACES, EXPONENTIAL_AT) plays no part. `toFixed()` with no argument prints the exact value in plain notation, and that is what is modelled.
- `for (var net in …)` visits the keys in JavaScript's property order. The model picks an arbitrary order, which is sound because each step touches only its own entry.
- The compiler, typechain and etherscan sections of the configuration are static data with no logic, and are not modelled.
- `vars.get("BNBChain_RPC_URL")` is the parameter `bnbRpcUrl`. A missing variable, which makes Hardhat throw, is not modelled.
- HardhatConfig.StripWhitespace: its own contract states only the length bound. The removal of every `\s` character and the preservation of every other character are the lemmas listed above.
- Constants: `isMainnet` and `isDefinedNetwork` are not called anywhere in the modelled files. Their properties are stated as lemmas about the predicates.
