/** `getMintersInfo`: from a transaction to the (beneficiary, amount) pair its
    calldata credits, through the registry, one level of meta-transaction
    unwrapping and the sender substitution. */
module Resolver {
  import opened Values
  import opened Signature
  import opened TxParser
  import opened Registry

  /** The fields of a transaction the pipeline reads: its calldata, its sender
      (`tx.get("from")`, None when absent), its recipient (None for a contract
      creation) and its hash. */
  datatype Tx = Tx(input: Field, sender: Field, to: Option<string>, hash: seq<byte>)

  /** `PARSERS.get`: a selector to its parser, or None. */
  type Lookup = string -> Option<TxDataParser>

  /** A resolved pair: the beneficiary and the amount, each a Python value. */
  type Pair = (Field, Field)

  /** `getMintersInfo(tx, second_pass)`. Ok(None) is the not-found signal of
      an unknown selector; Err is an exception the script does not catch. */
  function GetMintersInfo(parsers: Lookup, dec: Decoder, tx: Tx, secondPass: bool := false): (r: Result<Option<Pair>>)
    decreases if secondPass then 0 else 1
  {
    var signature :- GetFunctionSignature(tx.input);
    match parsers(signature)
    case None => Ok(None)
    case Some(parser) =>
      var fields :- ParseTx(parser, tx.input, dec);
      if parser.isMetaTransaction && !secondPass then
        if |fields| != 2 then Err(UnpackMismatch)
        else GetMintersInfo(parsers, dec, tx.(input := fields[1]), true)
      else
        var patched :- if !parser.useSenderAddress then Ok(fields)
                       else if |fields| == 0 then Err(NoFirstField)
                       else Ok(fields[0 := tx.sender]);
        if |patched| != 2 then Err(UnpackMismatch) else Ok(Some((patched[0], patched[1])))
  }

  /** The parser a transaction's selector finds, if its calldata has a
      selector and the registry knows it. */
  predicate Known(parsers: Lookup, tx: Tx)
  {
    GetFunctionSignature(tx.input).Ok? && parsers(GetFunctionSignature(tx.input).value).Some?
  }

  function ParserOf(parsers: Lookup, tx: Tx): TxDataParser
    requires Known(parsers, tx)
  {
    parsers(GetFunctionSignature(tx.input).value).value
  }

  /** Unknown selector: the not-found signal, and the decoder is never
      consulted. */
  lemma UnknownSelectorNotFound(parsers: Lookup, dec: Decoder, dec': Decoder, tx: Tx, secondPass: bool)
    requires GetFunctionSignature(tx.input).Ok? && !Known(parsers, tx)
    ensures GetMintersInfo(parsers, dec, tx, secondPass) == Ok(None)
    ensures GetMintersInfo(parsers, dec, tx, secondPass) == GetMintersInfo(parsers, dec', tx, secondPass)
  {
  }

  /** Calldata that is neither a string nor bytes raises before any lookup. */
  lemma UnsupportedInputRaises(parsers: Lookup, dec: Decoder, tx: Tx, secondPass: bool)
    requires GetFunctionSignature(tx.input).Err?
    ensures GetMintersInfo(parsers, dec, tx, secondPass) == Err(UnsupportedInput)
  {
  }

  /** A failing `parse_tx` raises its own exception through `getMintersInfo`. */
  lemma ParseFailurePropagates(parsers: Lookup, dec: Decoder, tx: Tx, secondPass: bool)
    requires Known(parsers, tx)
    requires ParseTx(ParserOf(parsers, tx), tx.input, dec).Err?
    ensures GetMintersInfo(parsers, dec, tx, secondPass) == Err(ParseTx(ParserOf(parsers, tx), tx.input, dec).error)
  {
  }

  /** Plain resolution, which is also every second pass: the two wanted
      fields as a pair, the first replaced by the sender exactly when the
      parser says so, the amount untouched. */
  lemma PlainResolution(parsers: Lookup, dec: Decoder, tx: Tx, secondPass: bool)
    requires Known(parsers, tx)
    requires !ParserOf(parsers, tx).isMetaTransaction || secondPass
    requires ParseTx(ParserOf(parsers, tx), tx.input, dec).Ok?
    requires |ParseTx(ParserOf(parsers, tx), tx.input, dec).value| == 2
    ensures var fields := ParseTx(ParserOf(parsers, tx), tx.input, dec).value;
      var r := GetMintersInfo(parsers, dec, tx, secondPass);
      && r.Ok? && r.value.Some?
      && r.value.value.0 == (if ParserOf(parsers, tx).useSenderAddress then tx.sender else fields[0])
      && r.value.value.1 == fields[1]
  {
  }

  /** A meta-transaction on the first pass resolves as a second pass over a
      copy of the transaction whose calldata is the second wanted field and
      whose sender, recipient and hash are the original's; the outer first
      field plays no part. */
  lemma MetaTransactionUnwrapsOnce(parsers: Lookup, dec: Decoder, tx: Tx)
    requires Known(parsers, tx) && ParserOf(parsers, tx).isMetaTransaction
    requires ParseTx(ParserOf(parsers, tx), tx.input, dec).Ok?
    requires |ParseTx(ParserOf(parsers, tx), tx.input, dec).value| == 2
    ensures var inner := ParseTx(ParserOf(parsers, tx), tx.input, dec).value[1];
      GetMintersInfo(parsers, dec, tx) == GetMintersInfo(parsers, dec, tx.(input := inner), true)
  {
  }

  /** The second pass does not unwrap again: a meta-transaction nested in a
      meta-transaction resolves to the inner envelope's own two fields, its
      signer and its calldata, which is the mis-resolution the single level
      of unwrapping leaves. */
  lemma NestedMetaTransactionNotUnwrapped(parsers: Lookup, dec: Decoder, tx: Tx)
    requires Known(parsers, tx) && ParserOf(parsers, tx).isMetaTransaction
    requires ParseTx(ParserOf(parsers, tx), tx.input, dec).Ok?
    requires |ParseTx(ParserOf(parsers, tx), tx.input, dec).value| == 2
    requires var copy := tx.(input := ParseTx(ParserOf(parsers, tx), tx.input, dec).value[1]);
      && Known(parsers, copy)
      && ParserOf(parsers, copy).isMetaTransaction && !ParserOf(parsers, copy).useSenderAddress
      && ParseTx(ParserOf(parsers, copy), copy.input, dec).Ok?
      && |ParseTx(ParserOf(parsers, copy), copy.input, dec).value| == 2
    ensures var copy := tx.(input := ParseTx(ParserOf(parsers, tx), tx.input, dec).value[1]);
      var innerFields := ParseTx(ParserOf(parsers, copy), copy.input, dec).value;
      GetMintersInfo(parsers, dec, tx) == Ok(Some((innerFields[0], innerFields[1])))
  {
    var copy := tx.(input := ParseTx(ParserOf(parsers, tx), tx.input, dec).value[1]);
    MetaTransactionUnwrapsOnce(parsers, dec, tx);
    PlainResolution(parsers, dec, copy, true);
  }

  /** A meta-transaction whose inner calldata has a selector the table does
      not know gives the not-found result too, although its outer selector is
      known. */
  lemma InnerSelectorUnknownNotFound(parsers: Lookup, dec: Decoder, tx: Tx)
    requires Known(parsers, tx) && ParserOf(parsers, tx).isMetaTransaction
    requires ParseTx(ParserOf(parsers, tx), tx.input, dec).Ok?
    requires |ParseTx(ParserOf(parsers, tx), tx.input, dec).value| == 2
    requires var copy := tx.(input := ParseTx(ParserOf(parsers, tx), tx.input, dec).value[1]);
      GetFunctionSignature(copy.input).Ok? && !Known(parsers, copy)
    ensures GetMintersInfo(parsers, dec, tx) == Ok(None)
  {
    var copy := tx.(input := ParseTx(ParserOf(parsers, tx), tx.input, dec).value[1]);
    MetaTransactionUnwrapsOnce(parsers, dec, tx);
    UnknownSelectorNotFound(parsers, dec, dec, copy, true);
  }

  // ---------------------------------------------------------------------------
  // Resolution through the table itself

  /** A decoder that, whenever it succeeds, yields one value per top-level
      type of the argument string, as the ABI decoder does. */
  ghost predicate RespectsArity(dec: Decoder)
  {
    forall args, tail :: dec(args, tail).Some? ==> |dec(args, tail).value| == Arity(args)
  }

  /** A well-formed parser over such a decoder finds both wanted fields. */
  lemma WantedFieldsPresent(p: TxDataParser, input: Field, dec: Decoder)
    requires WellFormed(p) && RespectsArity(dec)
    requires ParseTx(p, input, dec).Ok?
    ensures |ParseTx(p, input, dec).value| == 2
    ensures ParseTx(p, input, dec).value[0].Some? && ParseTx(p, input, dec).value[1].Some?
  {
    assert |Decoded(p, input, dec)| == |p.names|;
    assert p.names[..|p.names|] == p.names;
    ParseTxFields(p, input, dec, 0);
    ParseTxFields(p, input, dec, 1);
  }

  /** Every entry a lookup finds is well formed. */
  ghost predicate AllWellFormed(parsers: Lookup)
  {
    forall selector :: parsers(selector).Some? ==> WellFormed(parsers(selector).value)
  }

  /** Through a table of well-formed entries, with a decoder that respects
      arity, `getMintersInfo` raises only for calldata of the wrong type, bad
      hex or a failed decode, never on the tuple unpacking or the sender
      substitution; a resolved pair always carries an amount, and its
      beneficiary is a decoded field or the transaction's sender. */
  lemma {:induction false} WellFormedResolution(parsers: Lookup, dec: Decoder, tx: Tx, secondPass: bool)
    requires AllWellFormed(parsers) && RespectsArity(dec)
    ensures var r := GetMintersInfo(parsers, dec, tx, secondPass);
      && (r.Err? ==> r.error == UnsupportedInput || r.error == BadHex || r.error == DecodeFailed)
      && (r.Ok? && r.value.Some? ==> r.value.value.1.Some? && (r.value.value.0.Some? || r.value.value.0 == tx.sender))
    decreases if secondPass then 0 else 1
  {
    var sig := GetFunctionSignature(tx.input);
    if sig.Ok? && parsers(sig.value).Some? {
      var p := parsers(sig.value).value;
      if ParseTx(p, tx.input, dec).Ok? {
        WantedFieldsPresent(p, tx.input, dec);
        if p.isMetaTransaction && !secondPass {
          WellFormedResolution(parsers, dec, tx.(input := ParseTx(p, tx.input, dec).value[1]), true);
        }
      }
    }
  }

  /** `PARSERS` is such a table. */
  lemma RegistryResolution(dec: Decoder, tx: Tx, secondPass: bool)
    requires RespectsArity(dec)
    ensures var r := GetMintersInfo(Parsers, dec, tx, secondPass);
      && (r.Err? ==> r.error == UnsupportedInput || r.error == BadHex || r.error == DecodeFailed)
      && (r.Ok? && r.value.Some? ==> r.value.value.1.Some? && (r.value.value.0.Some? || r.value.value.0 == tx.sender))
  {
    forall selector | Parsers(selector).Some?
      ensures WellFormed(Parsers(selector).value)
    {
      ParsersWellFormed(selector);
    }
    WellFormedResolution(Parsers, dec, tx, secondPass);
  }
}
