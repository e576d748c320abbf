/** `PARSERS`: the static table from function selector to calldata parser,
    and the shape every entry of it has. */
module Registry {
  import opened Values
  import opened Signature
  import opened TxParser

  /** The declaration `name(t1,...,tn)`, written from its name and its
      argument types. */
  function Declaration(name: string, types: seq<string>): string
  {
    name + "(" + (Join(",", types) + ")")
  }

  /** `PARSERS.get(selector)`: the parser registered under a selector, or
      None for a selector the table does not know. */
  function Parsers(selector: string): Option<TxDataParser>
  {
    match selector
    case "0x77f61403" => Some(MintParser)
    case "0xd039fca1" => Some(ExecuteMetaTransactionParser)
    case "0x29349116" => Some(MintThenSwapCurveParser)
    case "0xa318f9de" => Some(MintThenDeposit3Parser)
    case "0x74955c42" => Some(MintThenSwapParser)
    case "0xdcf0bb3a" => Some(MintThenDeposit2Parser)
    case "0x0bfe8b92" => Some(RecoverStuckParser)
    case "0x834a7182" => Some(MintThenSwapWbtcParser)
    case "0x47f701e7" => Some(MintRenBTCParser)
    case "0x0f5b02cd" => Some(MintDaiParser)
    case "0x2012aca7" => Some(DepositParser)
    case "0xec369f7d" => Some(DepositBtcParser)
    case "0xaacaaf88" => Some(ExecuteParser)
    case _ => None
  }

  // The thirteen calldata shapes, in the order of the table.

  const MintParser: TxDataParser := TxDataParser(
    Declaration("mint", ["string", "address", "uint256", "bytes32", "bytes"]),
    ["_symbol", "_recipient", "_amount", "_nHash", "_sig"],
    ["_recipient", "_amount"])

  const ExecuteMetaTransactionParser: TxDataParser := TxDataParser(
    Declaration("executeMetaTransaction", ["address", "bytes", "string", "string", "bytes32", "bytes32", "uint8"]),
    ["userAddress", "functionSignature", "message", "length", "sigR", "sigS", "sigV"],
    ["userAddress", "functionSignature"],
    isMetaTransaction := true)

  const MintThenSwapCurveParser: TxDataParser := TxDataParser(
    Declaration("mintThenSwap", ["uint256", "uint256", "uint256", "int128", "address", "uint256", "bytes32", "bytes"]),
    ["_minExchangeRate", "_newMinExchangeRate", "_slippage", "_j", "_coinDestination", "_amount", "_nHash", "_sig"],
    ["_coinDestination", "_amount"])

  const MintThenDeposit3Parser: TxDataParser := TxDataParser(
    Declaration("mintThenDeposit", ["address", "uint256", "uint256[3]", "uint256", "uint256", "bytes32", "bytes"]),
    ["_wbtcDestination", "_amount", "_amounts", "_min_mint_amount", "_new_min_mint_amount", "_nHash", "_sig"],
    ["_wbtcDestination", "_amount"])

  const MintThenSwapParser: TxDataParser := TxDataParser(
    Declaration("mintThenSwap", ["uint256", "uint256", "uint256", "address", "uint256", "bytes32", "bytes"]),
    ["_minExchangeRate", "_newMinExchangeRate", "_slippage", "_wbtcDestination", "_amount", "_nHash", "_sig"],
    ["_wbtcDestination", "_amount"])

  const MintThenDeposit2Parser: TxDataParser := TxDataParser(
    Declaration("mintThenDeposit", ["address", "uint256", "uint256[2]", "uint256", "uint256", "bytes32", "bytes"]),
    ["_wbtcDestination", "_amount", "_amounts", "_min_mint_amount", "_new_min_mint_amount", "_nHash", "_sig"],
    ["_wbtcDestination", "_amount"])

  // `encoded` is a placeholder that the sender address replaces
  const RecoverStuckParser: TxDataParser := TxDataParser(
    Declaration("recoverStuck", ["bytes", "uint256", "bytes32", "bytes"]),
    ["encoded", "_amount", "_nHash", "_sig"],
    ["encoded", "_amount"],
    useSenderAddress := true)

  const MintThenSwapWbtcParser: TxDataParser := TxDataParser(
    Declaration("mintThenSwap", ["uint256", "address", "uint256", "bytes32", "bytes"]),
    ["_minWbtcAmount", "_wbtcDestination", "_amount", "_nHash", "_sig"],
    ["_wbtcDestination", "_amount"])

  const MintRenBTCParser: TxDataParser := TxDataParser(
    Declaration("mintRenBTC", ["address", "uint256", "uint256", "uint256", "bytes32", "bytes"]),
    ["_recipient", "_gasFee", "_serviceFeeRate", "_amount", "_nHash", "_sig"],
    ["_recipient", "_amount"])

  // `_btcAddr` is a placeholder that the sender address replaces
  const MintDaiParser: TxDataParser := TxDataParser(
    Declaration("mintDai", ["uint256", "bytes", "uint256", "uint256", "bytes32", "bytes"]),
    ["_dart", "_btcAddr", "_minWbtcAmount", "_amount", "_nHash", "_sig"],
    ["_btcAddr", "_amount"],
    useSenderAddress := true)

  // `_msg` is a placeholder that the sender address replaces
  const DepositParser: TxDataParser := TxDataParser(
    Declaration("deposit", ["bytes", "uint256", "bytes32", "bytes"]),
    ["_msg", "_amount", "_nHash", "_sig"],
    ["_msg", "_amount"],
    useSenderAddress := true)

  const DepositBtcParser: TxDataParser := TxDataParser(
    Declaration("depositbtc", ["address", "bytes", "uint256", "bytes32", "bytes"]),
    ["_user", "_msg", "_amount", "_nHash", "_sig"],
    ["_user", "_amount"])

  const ExecuteParser: TxDataParser := TxDataParser(
    Declaration("execute", ["address", "bytes", "uint256", "bytes", "uint256", "uint256"]),
    ["_wallet", "_data", "_nonce", "_signatures", "_gasPrice", "_gasLimit"],
    ["_wallet", "_data"],
    isMetaTransaction := true)

  predicate Distinct(s: seq<string>)
  {
    forall i, j | 0 <= i < j < |s| :: s[i] != s[j]
  }

  /** The shape every registry entry has: one argument name per top-level
      type, no name twice, two wanted names that are argument names, and
      never both flags. */
  predicate WellFormed(p: TxDataParser)
  {
    && |p.names| == Arity(p.Args())
    && Distinct(p.names)
    && |p.wantFields| == 2
    && p.wantFields[0] in p.names && p.wantFields[1] in p.names
    && !(p.isMetaTransaction && p.useSenderAddress)
  }

  /** An entry built from a declaration over plain types is well formed when
      its names line up with those types. */
  lemma EntryWellFormed(name: string, types: seq<string>, names: seq<string>, wants: seq<string>,
                        isMeta: bool, useSender: bool)
    requires '(' !in name
    requires |types| >= 1 && forall i | 0 <= i < |types| :: PlainType(types[i])
    requires |names| == |types| && Distinct(names)
    requires |wants| == 2 && wants[0] in names && wants[1] in names
    requires !(isMeta && useSender)
    ensures WellFormed(TxDataParser(Declaration(name, types), names, wants, isMeta, useSender))
    ensures TxDataParser(Declaration(name, types), names, wants, isMeta, useSender).Args()
            == "(" + (Join(",", types) + ")")
  {
    ArgsOfTypeList(name, types);
  }

  lemma MintParserWellFormed()
    ensures WellFormed(MintParser)
  {
    EntryWellFormed("mint", ["string", "address", "uint256", "bytes32", "bytes"],
      ["_symbol", "_recipient", "_amount", "_nHash", "_sig"], ["_recipient", "_amount"], false, false);
  }

  lemma ExecuteMetaTransactionParserWellFormed()
    ensures WellFormed(ExecuteMetaTransactionParser)
  {
    EntryWellFormed("executeMetaTransaction", ["address", "bytes", "string", "string", "bytes32", "bytes32", "uint8"],
      ["userAddress", "functionSignature", "message", "length", "sigR", "sigS", "sigV"], ["userAddress", "functionSignature"], true, false);
  }

  lemma MintThenSwapCurveParserWellFormed()
    ensures WellFormed(MintThenSwapCurveParser)
  {
    EntryWellFormed("mintThenSwap", ["uint256", "uint256", "uint256", "int128", "address", "uint256", "bytes32", "bytes"],
      ["_minExchangeRate", "_newMinExchangeRate", "_slippage", "_j", "_coinDestination", "_amount", "_nHash", "_sig"], ["_coinDestination", "_amount"], false, false);
  }

  lemma MintThenDeposit3ParserWellFormed()
    ensures WellFormed(MintThenDeposit3Parser)
  {
    EntryWellFormed("mintThenDeposit", ["address", "uint256", "uint256[3]", "uint256", "uint256", "bytes32", "bytes"],
      ["_wbtcDestination", "_amount", "_amounts", "_min_mint_amount", "_new_min_mint_amount", "_nHash", "_sig"], ["_wbtcDestination", "_amount"], false, false);
  }

  lemma MintThenSwapParserWellFormed()
    ensures WellFormed(MintThenSwapParser)
  {
    EntryWellFormed("mintThenSwap", ["uint256", "uint256", "uint256", "address", "uint256", "bytes32", "bytes"],
      ["_minExchangeRate", "_newMinExchangeRate", "_slippage", "_wbtcDestination", "_amount", "_nHash", "_sig"], ["_wbtcDestination", "_amount"], false, false);
  }

  lemma MintThenDeposit2ParserWellFormed()
    ensures WellFormed(MintThenDeposit2Parser)
  {
    EntryWellFormed("mintThenDeposit", ["address", "uint256", "uint256[2]", "uint256", "uint256", "bytes32", "bytes"],
      ["_wbtcDestination", "_amount", "_amounts", "_min_mint_amount", "_new_min_mint_amount", "_nHash", "_sig"], ["_wbtcDestination", "_amount"], false, false);
  }

  lemma RecoverStuckParserWellFormed()
    ensures WellFormed(RecoverStuckParser)
  {
    EntryWellFormed("recoverStuck", ["bytes", "uint256", "bytes32", "bytes"],
      ["encoded", "_amount", "_nHash", "_sig"], ["encoded", "_amount"], false, true);
  }

  lemma MintThenSwapWbtcParserWellFormed()
    ensures WellFormed(MintThenSwapWbtcParser)
  {
    EntryWellFormed("mintThenSwap", ["uint256", "address", "uint256", "bytes32", "bytes"],
      ["_minWbtcAmount", "_wbtcDestination", "_amount", "_nHash", "_sig"], ["_wbtcDestination", "_amount"], false, false);
  }

  lemma MintRenBTCParserWellFormed()
    ensures WellFormed(MintRenBTCParser)
  {
    EntryWellFormed("mintRenBTC", ["address", "uint256", "uint256", "uint256", "bytes32", "bytes"],
      ["_recipient", "_gasFee", "_serviceFeeRate", "_amount", "_nHash", "_sig"], ["_recipient", "_amount"], false, false);
  }

  lemma MintDaiParserWellFormed()
    ensures WellFormed(MintDaiParser)
  {
    EntryWellFormed("mintDai", ["uint256", "bytes", "uint256", "uint256", "bytes32", "bytes"],
      ["_dart", "_btcAddr", "_minWbtcAmount", "_amount", "_nHash", "_sig"], ["_btcAddr", "_amount"], false, true);
  }

  lemma DepositParserWellFormed()
    ensures WellFormed(DepositParser)
  {
    EntryWellFormed("deposit", ["bytes", "uint256", "bytes32", "bytes"],
      ["_msg", "_amount", "_nHash", "_sig"], ["_msg", "_amount"], false, true);
  }

  lemma DepositBtcParserWellFormed()
    ensures WellFormed(DepositBtcParser)
  {
    EntryWellFormed("depositbtc", ["address", "bytes", "uint256", "bytes32", "bytes"],
      ["_user", "_msg", "_amount", "_nHash", "_sig"], ["_user", "_amount"], false, false);
  }

  lemma ExecuteParserWellFormed()
    ensures WellFormed(ExecuteParser)
  {
    EntryWellFormed("execute", ["address", "bytes", "uint256", "bytes", "uint256", "uint256"],
      ["_wallet", "_data", "_nonce", "_signatures", "_gasPrice", "_gasLimit"], ["_wallet", "_data"], true, false);
  }

  /** All thirteen shapes are well formed. */
  lemma EntriesWellFormed()
    ensures WellFormed(MintParser)
    ensures WellFormed(ExecuteMetaTransactionParser)
    ensures WellFormed(MintThenSwapCurveParser)
    ensures WellFormed(MintThenDeposit3Parser)
    ensures WellFormed(MintThenSwapParser)
    ensures WellFormed(MintThenDeposit2Parser)
    ensures WellFormed(RecoverStuckParser)
    ensures WellFormed(MintThenSwapWbtcParser)
    ensures WellFormed(MintRenBTCParser)
    ensures WellFormed(MintDaiParser)
    ensures WellFormed(DepositParser)
    ensures WellFormed(DepositBtcParser)
    ensures WellFormed(ExecuteParser)
  {
    MintParserWellFormed();
    ExecuteMetaTransactionParserWellFormed();
    MintThenSwapCurveParserWellFormed();
    MintThenDeposit3ParserWellFormed();
    MintThenSwapParserWellFormed();
    MintThenDeposit2ParserWellFormed();
    RecoverStuckParserWellFormed();
    MintThenSwapWbtcParserWellFormed();
    MintRenBTCParserWellFormed();
    MintDaiParserWellFormed();
    DepositParserWellFormed();
    DepositBtcParserWellFormed();
    ExecuteParserWellFormed();
  }

  // Where each shape sits in the table, one lookup at a time.

  lemma MintParserRegistered()
    ensures Parsers("0x77f61403") == Some(MintParser)
  {
  }

  lemma ExecuteMetaTransactionParserRegistered()
    ensures Parsers("0xd039fca1") == Some(ExecuteMetaTransactionParser)
  {
  }

  lemma MintThenSwapCurveParserRegistered()
    ensures Parsers("0x29349116") == Some(MintThenSwapCurveParser)
  {
  }

  lemma MintThenDeposit3ParserRegistered()
    ensures Parsers("0xa318f9de") == Some(MintThenDeposit3Parser)
  {
  }

  lemma MintThenSwapParserRegistered()
    ensures Parsers("0x74955c42") == Some(MintThenSwapParser)
  {
  }

  lemma MintThenDeposit2ParserRegistered()
    ensures Parsers("0xdcf0bb3a") == Some(MintThenDeposit2Parser)
  {
  }

  lemma RecoverStuckParserRegistered()
    ensures Parsers("0x0bfe8b92") == Some(RecoverStuckParser)
  {
  }

  lemma MintThenSwapWbtcParserRegistered()
    ensures Parsers("0x834a7182") == Some(MintThenSwapWbtcParser)
  {
  }

  lemma MintRenBTCParserRegistered()
    ensures Parsers("0x47f701e7") == Some(MintRenBTCParser)
  {
  }

  lemma MintDaiParserRegistered()
    ensures Parsers("0x0f5b02cd") == Some(MintDaiParser)
  {
  }

  lemma DepositParserRegistered()
    ensures Parsers("0x2012aca7") == Some(DepositParser)
  {
  }

  lemma DepositBtcParserRegistered()
    ensures Parsers("0xec369f7d") == Some(DepositBtcParser)
  {
  }

  lemma ExecuteParserRegistered()
    ensures Parsers("0xaacaaf88") == Some(ExecuteParser)
  {
  }

  /** The thirteen selectors are the only keys of the table. */
  lemma ParsersKeys(selector: string)
    requires Parsers(selector).Some?
    ensures selector == "0x77f61403"
         || selector == "0xd039fca1"
         || selector == "0x29349116"
         || selector == "0xa318f9de"
         || selector == "0x74955c42"
         || selector == "0xdcf0bb3a"
         || selector == "0x0bfe8b92"
         || selector == "0x834a7182"
         || selector == "0x47f701e7"
         || selector == "0x0f5b02cd"
         || selector == "0x2012aca7"
         || selector == "0xec369f7d"
         || selector == "0xaacaaf88"
  {
  }

  /** Every entry of `PARSERS` is well formed. */
  lemma ParsersWellFormed(selector: string)
    requires Parsers(selector).Some?
    ensures WellFormed(Parsers(selector).value)
  {
    ParsersKeys(selector);
    EntriesWellFormed();
    MintParserRegistered();
    ExecuteMetaTransactionParserRegistered();
    MintThenSwapCurveParserRegistered();
    MintThenDeposit3ParserRegistered();
    MintThenSwapParserRegistered();
    MintThenDeposit2ParserRegistered();
    RecoverStuckParserRegistered();
    MintThenSwapWbtcParserRegistered();
    MintRenBTCParserRegistered();
    MintDaiParserRegistered();
    DepositParserRegistered();
    DepositBtcParserRegistered();
    ExecuteParserRegistered();
  }

  /** Exactly the two wallet-relay shapes are meta-transactions, and exactly
      the three placeholder shapes take the sender's address. */
  lemma FlaggedEntries(selector: string)
    requires Parsers(selector).Some?
    ensures Parsers(selector).value.isMetaTransaction <==> selector == "0xd039fca1" || selector == "0xaacaaf88"
    ensures Parsers(selector).value.useSenderAddress <==>
      selector == "0x0bfe8b92" || selector == "0x0f5b02cd" || selector == "0x2012aca7"
  {
    ParsersKeys(selector);
    MintParserRegistered();
    ExecuteMetaTransactionParserRegistered();
    MintThenSwapCurveParserRegistered();
    MintThenDeposit3ParserRegistered();
    MintThenSwapParserRegistered();
    MintThenDeposit2ParserRegistered();
    RecoverStuckParserRegistered();
    MintThenSwapWbtcParserRegistered();
    MintRenBTCParserRegistered();
    MintDaiParserRegistered();
    DepositParserRegistered();
    DepositBtcParserRegistered();
    ExecuteParserRegistered();
  }
}
