# renBTC minter snapshot: calldata dispatch

This project models the core of `scripts/renbtcsnapshot.py`. The script
builds a snapshot of the addresses that minted renBTC through the RenVM BTC
gateway. Each `LogMint` event names a contract, not the minter. The script
must therefore read the calldata of the transaction behind each event and
work out who the beneficiary is and how much was minted.

The model covers these parts of the script:

- **Selectors** (`Signature`). `getFunctionSignature` takes the 4-byte
  function selector of calldata, given either as a `0x` hex string or as
  raw bytes. `strToFunctionSignature` takes the selector of a declaration.
  `getArgsFromDefinition` builds the argument-type string that is handed to
  the ABI decoder. Python's `split` and `join` are modelled as written.
- **Hex** (`HexCodec`). Lower-case hex encoding, and `bytes.fromhex` with
  CPython's rules: upper- and lower-case digits are accepted, and ASCII
  whitespace between byte pairs is skipped.
- **`TxDataParser`** (`TxParser`). The five constructor fields, plus the
  argument string that `getArgsFromDefinition` derives from the declaration,
  as written. `parse_tx` strips the selector,
  decodes the tail, zips the argument names with the decoded values and
  picks out the wanted fields with `dict.get`.
- **`PARSERS`** (`Registry`). The thirteen entries, each with its literal
  selector, declaration, names, wanted fields and flags. The model proves
  that every entry is well formed, and which entries carry each flag.
- **`getMintersInfo`** (`Resolver`). The lookup, the single level of
  meta-transaction unwrapping, the sender substitution and the final
  two-way unpacking. Every Python exception is an `Err` value.
- **`get_renbtc_mint`** (`Snapshot`). The scan over the mint logs as an
  imperative loop. It checks the one skip list, `SKIP_ADDRESSES`, twice
  (against the event's `_to` and against the transaction's `to`), keeps the
  `stats` counter, adds amounts into the `mints` counter and finally drops
  zero totals. It is proved against reference definitions over the
  sequence of per-log outcomes.
- **The self-check in `main`** (`Snapshot.CountMissing`). It counts, one
  address at a time, the new minters that are missing from the old list
  and from the final snapshot. It is proved to equal the two set
  differences that `main` asserts against.

Some things the script takes from outside are parameters of the model:

- **The ABI decoder.** `eth_abi.decode_single` is the parameter `dec`, of
  type `Decoder`. It returns `None` where the library would raise.
  `RespectsArity` states the one property of the real decoder that the
  proofs about the registry need.
- **The keccak-256 digest.** This is a parameter of
  `StrToFunctionSignature`.
- **The logs and their transactions.** These are given already fetched,
  as `MintLog` values.
- **`SKIP_ADDRESSES`.** This is the set `skip`.
- **The three address sets of `main`.** These are given already
  checksummed.

## Model

| member | source | states |
|---|---|---|
| `HexCodec.Hex` | scripts/renbtcsnapshot.py:65 | `bytes.hex()`: two lower-case hex digits per byte, in order. |
| `HexCodec.FromHex` | scripts/renbtcsnapshot.py:92 | `bytes.fromhex`: digits of either case in pairs, ASCII whitespace skipped before a pair, None (the `ValueError`) for anything else. |
| `HexCodec.FromHexHex` | scripts/renbtcsnapshot.py:92 | `bytes.fromhex` of the hex of any byte string gives that byte string back. |
| `HexCodec.HexSplit` | scripts/renbtcsnapshot.py:65 | The first 2k hex digits of a byte string are the hex of its first k bytes. The remaining digits are the hex of the remaining bytes. |
| `Signature.GetFunctionSignature` | scripts/renbtcsnapshot.py:58-66 | Succeeds exactly for a `str` or `bytes` input. For a string, the selector is its prefix of length min(10, len). For bytes, it is `0x` followed by hex digits that decode back to the first min(4, len) bytes. |
| `Signature.SelectorOfHexIsSelectorOfBytes` | scripts/renbtcsnapshot.py:62-65 | The `0x` hex string of some calldata and the raw bytes of the same calldata have the same selector, at every length. |
| `Signature.StrToFunctionSignature` | scripts/renbtcsnapshot.py:74-78 | From a digest of at least 4 bytes, gives a 10-character selector. It is the selector that `getFunctionSignature` gives for the digest's bytes. |
| `Signature.CalldataCarriesDeclarationSelector` | scripts/renbtcsnapshot.py:58-78 | Calldata whose first four bytes are those of a declaration's digest has, as its selector, the declaration's selector. |
| `Signature.Split` | scripts/renbtcsnapshot.py:72 | `s.split(c)` for one character: the pieces between the separators, always at least one. |
| `Signature.Join` | scripts/renbtcsnapshot.py:72 | `glue.join(parts)`: the parts with the glue between each two. |
| `Signature.ArgsFromDefinition` | scripts/renbtcsnapshot.py:68-72 | `getArgsFromDefinition` as written: `(` followed by the pieces after the first `(` joined with the empty string. |
| `Signature.SchemaOf` | scripts/renbtcsnapshot.py:68-72 | The argument string the function evidently intends: the same pieces joined back with `(`. |
| `Signature.JoinSplit` | scripts/renbtcsnapshot.py:72 | Joining the pieces of `s.split(c)` with `c` gives `s` back. |
| `Signature.JoinNothingSplit` | scripts/renbtcsnapshot.py:72 | Joining the pieces of `s.split(c)` with the empty string gives `s` with every `c` removed. |
| `Signature.SplitAtFirst` | scripts/renbtcsnapshot.py:72 | Without `c`, `s.split(c)` is `[s]`. Otherwise it is the part before the first `c`, followed by the split of the part after it. |
| `Signature.ArgsFromDefinitionMeaning` | scripts/renbtcsnapshot.py:68-72 | `getArgsFromDefinition` as written gives `(` and then everything after the first `(` with every later `(` removed. It gives just `(` when the declaration has no `(`. |
| `Signature.SchemaOfMeaning` | scripts/renbtcsnapshot.py:68-72 | The intended argument string is the declaration from its first `(` on. The name before that `(`, followed by the argument string, gives the declaration back. Without a `(`, the argument string is just `(`. |
| `Signature.ArgsFromDefinitionIsSchemaWithoutTuples` | scripts/renbtcsnapshot.py:68-72 | When no `(` follows the first one, the written and the intended argument strings are equal. |
| `Signature.ArgsAfterName` | scripts/renbtcsnapshot.py:68-72 | For `name(tail)` with no `(` in the name: the written string is `(` plus the tail with its `(` removed, and the intended string is `(` plus the tail. |
| `Signature.ArgsOfPlainDeclaration` | scripts/renbtcsnapshot.py:68-72 | A declaration whose types contain no `(` gets its own parenthesised type list from both definitions. |
| `Signature.ArgsFromDefinitionDropsTupleParen` | scripts/renbtcsnapshot.py:72 | A tuple-typed first argument loses its opening parenthesis in the written string, but keeps it in the intended string. |
| `Signature.TupleDeclarationMisparsed` | scripts/renbtcsnapshot.py:72 | Concrete case: `f((uint8,bool))` gives `(uint8,bool))` as written, against `((uint8,bool))` as intended. |
| `Signature.TopLevelCommasOfList` | scripts/renbtcsnapshot.py:95 | A comma-separated list of n plain types, followed by `)`, has n-1 top-level commas. |
| `Signature.ArgsOfTypeList` | scripts/renbtcsnapshot.py:68-72 | `name(t1,...,tn)` over plain types gets `(t1,...,tn)` from both definitions, and that string has exactly n top-level types. |
| `TxParser.TxDataParser.Args` | scripts/renbtcsnapshot.py:85 | `self.args`: `getArgsFromDefinition` of the parser's declaration. |
| `TxParser.ArgsOfParser` | scripts/renbtcsnapshot.py:80-88 | The parser's argument string, fixed at construction by `getArgsFromDefinition`, is `(` followed by everything after the declaration's first `(` with every later `(` removed, or just `(` when the declaration has none. |
| `TxParser.ArgumentTail` | scripts/renbtcsnapshot.py:91-94 | Raw bytes lose exactly their first min(4, len) bytes. A string succeeds exactly when `fromhex` accepts it from the 11th character on. Anything else fails. |
| `TxParser.ParseTx` | scripts/renbtcsnapshot.py:90-97 | Succeeds exactly when the tail is readable and the decoder accepts the parser's argument string with that tail. On success, it gives one field per wanted name. |
| `TxParser.ZipDict` | scripts/renbtcsnapshot.py:96 | `dict(zip(names, values))`: pairs up to the shorter length, a later duplicate name overwriting an earlier one. |
| `TxParser.Project` | scripts/renbtcsnapshot.py:97 | `[d.get(w) for w in wants]`: one field per wanted name, None for a name that is not a key. |
| `TxParser.ZipDictKeys` | scripts/renbtcsnapshot.py:96 | The keys of `dict(zip(names, values))` are exactly the names that have a partner value. |
| `TxParser.ZipDictValue` | scripts/renbtcsnapshot.py:96 | A name maps to the value at its last paired position in `dict(zip(...))`. |
| `TxParser.ParseTxFields` | scripts/renbtcsnapshot.py:95-97 | A wanted field is None exactly when its name has no decoded value. Otherwise it is the value at that name's last paired position. |
| `TxParser.ParseTxHexAgreesWithBytes` | scripts/renbtcsnapshot.py:91-94 | The hex-string form and the raw-byte form of the same calldata give the decoder the same tail, so `parse_tx` returns the same result for both. |
| `Registry.Parsers` | scripts/renbtcsnapshot.py:100-158 | `PARSERS.get`: the thirteen literal selectors, each with its parser's declaration, names, wanted fields and flags; None for any other string. |
| `Registry.EntryWellFormed` | scripts/renbtcsnapshot.py:100-158 | An entry built from a declaration over plain types, with one distinct name per type, whose two wanted names are among those names, is well formed. Its argument string is its parenthesised type list. |
| `Registry.EntriesWellFormed` | scripts/renbtcsnapshot.py:100-158 | Each of the thirteen entries has one distinct name per top-level type of its argument string, exactly two wanted names that are argument names, and never both flags. |
| `Registry.ParsersKeys` | scripts/renbtcsnapshot.py:100-158 | The table knows only its thirteen selectors. |
| `Registry.ParsersWellFormed` | scripts/renbtcsnapshot.py:100-158 | Every parser that `PARSERS.get` finds is well formed. |
| `Registry.FlaggedEntries` | scripts/renbtcsnapshot.py:100-158 | A found parser is a meta-transaction exactly for `0xd039fca1` and `0xaacaaf88`. It takes the sender's address exactly for `0x0bfe8b92`, `0x0f5b02cd` and `0x2012aca7`. |
| `Resolver.GetMintersInfo` | scripts/renbtcsnapshot.py:173-188 | The selector, the lookup (None when unknown), `parse_tx`, one unwrapping of a meta-transaction on the first pass, the sender substitution, and the two-way unpack; every exception on the way is an `Err`. |
| `Resolver.UnknownSelectorNotFound` | scripts/renbtcsnapshot.py:174-178 | A selector the table does not know gives the not-found result, whatever the decoder. |
| `Resolver.UnsupportedInputRaises` | scripts/renbtcsnapshot.py:174 | Calldata that is neither a string nor bytes raises before any lookup. |
| `Resolver.ParseFailurePropagates` | scripts/renbtcsnapshot.py:179 | An exception raised by `parse_tx` is the exception raised by `getMintersInfo`. |
| `Resolver.PlainResolution` | scripts/renbtcsnapshot.py:185-188 | Without unwrapping, the result is the two wanted fields. The first is replaced by the transaction's sender exactly when the parser says so, and the amount is untouched. |
| `Resolver.MetaTransactionUnwrapsOnce` | scripts/renbtcsnapshot.py:180-184 | On the first pass, a meta-transaction resolves as a second pass over a copy of the transaction whose calldata is the second wanted field. The outer first field plays no part. |
| `Resolver.NestedMetaTransactionNotUnwrapped` | scripts/renbtcsnapshot.py:173-188 | A meta-transaction inside a meta-transaction resolves to the two fields of the inner envelope, because it is not unwrapped again. |
| `Resolver.InnerSelectorUnknownNotFound` | scripts/renbtcsnapshot.py:173-184 | A meta-transaction whose inner calldata has an unknown selector gives the not-found result, although its outer selector is known. |
| `Resolver.WantedFieldsPresent` | scripts/renbtcsnapshot.py:95-97 | A well-formed parser, with a decoder that yields one value per top-level type, finds both wanted fields. |
| `Resolver.WellFormedResolution` | scripts/renbtcsnapshot.py:173-188 | Over well-formed entries, `getMintersInfo` raises only for the wrong calldata type, bad hex or a failed decode. A resolved pair always has an amount, and its beneficiary is a decoded value or the sender. |
| `Resolver.RegistryResolution` | scripts/renbtcsnapshot.py:100-188 | The same statement for `PARSERS` itself. |
| `Snapshot.Classify` | scripts/renbtcsnapshot.py:200-221 | One turn of the inner loop: skipped on `_to`, else skipped on `tx.to`, else empty on a None result, a crash on an exception or a non-integer amount, and otherwise a credit of the pair. |
| `Snapshot.NonZero` | scripts/renbtcsnapshot.py:223 | `valfilter(bool, ...)`: the entries whose value is not zero. |
| `Snapshot.GetRenbtcMint` | scripts/renbtcsnapshot.py:193-226 | The scan raises exactly when some log raises, and with the first log's exception. Otherwise the stats are the tallies of skipped and empty logs. A beneficiary is a key of the result exactly when its credited total is non-zero, and its value is that total. |
| `Snapshot.NonZeroTotals` | scripts/renbtcsnapshot.py:223 | `valfilter(bool, ...)` over a counter of totals keeps exactly the beneficiaries whose total is non-zero, each with its total. |
| `Snapshot.SkippedContractNeverDecoded` | scripts/renbtcsnapshot.py:202-206 | A log from a skip-listed contract is counted as skipped, and its transaction is never resolved. |
| `Snapshot.SkippedAddressNeverDecoded` | scripts/renbtcsnapshot.py:208-212 | A log that passes the first check but whose transaction goes to a skip-listed address is counted as skipped, and is never resolved. |
| `Snapshot.ResolvedLogCredited` | scripts/renbtcsnapshot.py:214-221 | A log that passes both checks is credited exactly when it resolves to a pair with an integer amount, and then with that pair. It is counted as empty exactly when `getMintersInfo` returns None: its selector, or a meta-transaction's inner selector, is unknown. |
| `Snapshot.RegistryScanCrashes` | scripts/renbtcsnapshot.py:215-221 | Through `PARSERS`, a log raises only for the wrong calldata type, bad hex, a failed decode or an amount that is not an integer. |
| `Snapshot.Accounting` | scripts/renbtcsnapshot.py:200-221 | Each log lands in exactly one of the three counters or the credits. Each counter counts the logs of its kind. |
| `Snapshot.CrashIffSomeLogCrashes` | scripts/renbtcsnapshot.py:200-221 | The scan's exception exists exactly when some log raises, and it is the exception of the earliest log that raises. |
| `Snapshot.CountMissing` | scripts/renbtcsnapshot.py:253-265 | The hand counts equal the sizes of `new - old` and `new - final`, so both asserts of `main` hold. |
| `Snapshot.OneMore` | scripts/renbtcsnapshot.py:258-262 | Visiting one more address adds one to the count for a set exactly when the address is absent from that set. |

## Left out

- Network I/O is left out: the block pagination of `getLogs` and `eth.getTransaction`. The scan takes its logs and their transactions as a sequence.
- File I/O is left out: the JSON files of `main`, `print` and the `tqdm` progress bar. The statistics are returned rather than printed.
- keccak-256 is not modelled. `strToFunctionSignature` receives the digest as a parameter, so the model cannot check that each table key is the selector of its declaration. The parser's `signature` field is never read during dispatch and is not stored.
- The ABI decoder is an uninterpreted parameter. Only its arity (`Resolver.RespectsArity`) is assumed, and only where it is a stated precondition.
- `web3.toChecksumAddress` is left out. Addresses are opaque strings, and the three sets of `main` are given already normalised. The contents of `SKIP_ADDRESSES` are the parameter `skip`.
- Signature.GetFunctionSignature: the third branch (an input of another type, such as `HexBytes`, sliced and hex-encoded) is modelled as the `UnsupportedInput` error, because the model has no value of such a type.
- Signature.StrToFunctionSignature: `web3.keccak` returns `HexBytes`, and the model takes its `.hex()` to give a `0x`-prefixed string, as the `hexbytes` releases of the script's time do. Later releases drop the `0x`, and then every registry key would fail to match this selector.
- The insertion order that `Counter.most_common` gives the result dictionary is not modelled. The result is a map.
- Python's `bool` is not modelled as a subtype of `int`: only an `Int` amount can be added to the counter.
- The exceptions of `parse_tx` and `getMintersInfo` are not caught anywhere in the script. The model follows the code, so an exception ends the scan as an `Err`. It is not turned into a not-found result.

## Findings

| source | as written | input that shows it | evidently intended | confidence | as-written member | corrected member |
|---|---|---|---|---|---|---|
| scripts/renbtcsnapshot.py:72 | The pieces after the first `(` are joined with `""`, so every later `(` is dropped. No entry of `PARSERS` has a tuple type, so the table itself is not affected (`Signature.ArgsOfTypeList`). | `f((uint8,bool))` gives `(uint8,bool))`, which is not a valid type string. | Join the pieces back with `(`, so the result is the declaration from its first `(` on: `((uint8,bool))`. | not executed | `Signature.TupleDeclarationMisparsed` | `Signature.SchemaOfMeaning` |
