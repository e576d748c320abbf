/** `TxDataParser`: one calldata shape, bound to its declaration, its argument
    names, the two fields wanted from it and two policy flags. */
module TxParser {
  import opened Values
  import opened HexCodec
  import opened Signature

  /** `TxDataParser(definition, names, want_fields, ...)`: the fields
      `__init__` sets once, both flags false unless given; nothing changes
      them afterwards. */
  datatype TxDataParser = TxDataParser(
    definition: string,
    names: seq<string>,
    wantFields: seq<string>,
    isMetaTransaction: bool := false,
    useSenderAddress: bool := false)
  {
    /** `self.args`, which `__init__` derives from the declaration with
        `getArgsFromDefinition` and which never changes afterwards, so it is
        a function of the declaration. */
    function Args(): string
    {
      ArgsFromDefinition(definition)
    }
  }

  /** The argument string is `(` followed by everything after the
      declaration's first `(` with every later `(` removed, and just `(`
      when there is none; it is the intended argument string exactly when
      no `(` follows the first one. */
  lemma ArgsOfParser(p: TxDataParser)
    ensures '(' in p.definition ==>
      p.Args() == "(" + Without(p.definition[FirstIndex(p.definition, '(') + 1..], '(')
    ensures '(' !in p.definition ==> p.Args() == "("
  {
    ArgsFromDefinitionMeaning(p.definition);
  }

  /** The argument tail of calldata: a hex string loses its first ten
      characters and is decoded with `bytes.fromhex`, raw bytes lose their
      first four bytes. */
  function ArgumentTail(input: Field): (r: Result<seq<byte>>)
    ensures input.Some? && input.value.Raw? ==>
      var b := input.value.b;
      r.Ok? && b == b[..Min(4, |b|)] + r.value
    ensures input.Some? && input.value.Text? ==>
      var s := input.value.s;
      r.Ok? <==> FromHex(s[Min(10, |s|)..]).Some?
    ensures r.Ok? ==> input.Some? && (input.value.Text? || input.value.Raw?)
  {
    match input
    case Some(Text(s)) =>
      (match FromHex(s[Min(10, |s|)..])
       case Some(b) => Ok(b)
       case None => Err(BadHex))
    case Some(Raw(b)) => Ok(b[Min(4, |b|)..])
    case _ => Err(UnsupportedInput)
  }

  /** `dict(zip(names, values))`: pairs up to the shorter of the two, and a
      name given twice keeps its later value. */
  function ZipDict(names: seq<string>, values: seq<Value>): map<string, Value>
    decreases |names|
  {
    var n := Min(|names|, |values|);
    if n == 0 then map[] else ZipDict(names[..n - 1], values[..n - 1])[names[n - 1] := values[n - 1]]
  }

  /** `[d.get(w) for w in wants]` */
  function Project(d: map<string, Value>, wants: seq<string>): (r: seq<Field>)
    ensures |r| == |wants|
  {
    seq(|wants|, i requires 0 <= i < |wants| => if wants[i] in d then Some(d[wants[i]]) else None)
  }

  /** `parse_tx`: strip the selector, decode the tail against the argument
      string, and return the wanted fields of the decoded values. It fails
      exactly when the tail or the decoder fails. */
  function ParseTx(p: TxDataParser, input: Field, dec: Decoder): (r: Result<seq<Field>>)
    ensures r.Ok? <==> ArgumentTail(input).Ok? && dec(p.Args(), ArgumentTail(input).value).Some?
    ensures r.Ok? ==> |r.value| == |p.wantFields|
  {
    var tail :- ArgumentTail(input);
    match dec(p.Args(), tail)
    case None => Err(DecodeFailed)
    case Some(values) => Ok(Project(ZipDict(p.names, values), p.wantFields))
  }

  /** The decoded values of a successful `parse_tx`. */
  function Decoded(p: TxDataParser, input: Field, dec: Decoder): seq<Value>
    requires ParseTx(p, input, dec).Ok?
  {
    dec(p.Args(), ArgumentTail(input).value).value
  }

  // ---------------------------------------------------------------------------
  // What the zip and the projection yield

  /** The keys of `dict(zip(names, values))` are the names that have a value. */
  lemma {:induction false} ZipDictKeys(names: seq<string>, values: seq<Value>, k: string)
    ensures k in ZipDict(names, values) <==> k in names[..Min(|names|, |values|)]
    decreases |names|
  {
    var n := Min(|names|, |values|);
    if n > 0 {
      var ns, vs := names[..n - 1], values[..n - 1];
      ZipDictKeys(ns, vs, k);
      assert Min(|ns|, |vs|) == n - 1;
      assert ns[..n - 1] == names[..n - 1];
      assert names[..n] == names[..n - 1] + [names[n - 1]];
    }
  }

  /** A name's value is the one at its last position among the paired names. */
  lemma {:induction false} ZipDictValue(names: seq<string>, values: seq<Value>, j: nat)
    requires j < Min(|names|, |values|)
    requires names[j] !in names[j + 1..Min(|names|, |values|)]
    ensures names[j] in ZipDict(names, values) && ZipDict(names, values)[names[j]] == values[j]
    decreases |names|
  {
    var n := Min(|names|, |values|);
    if j < n - 1 {
      var ns, vs := names[..n - 1], values[..n - 1];
      assert Min(|ns|, |vs|) == n - 1;
      assert names[n - 1] != names[j] by {
        assert names[j + 1..n][n - 2 - j] == names[n - 1];
      }
      assert ns[j + 1..n - 1] == names[j + 1..n - 1];
      assert names[j + 1..n] == names[j + 1..n - 1] + [names[n - 1]];
      ZipDictValue(ns, vs, j);
    }
  }

  /** `parse_tx` returns, for each wanted name in order, None when no decoded
      value is paired with that name, and otherwise the value at the name's
      last paired position. */
  lemma ParseTxFields(p: TxDataParser, input: Field, dec: Decoder, i: nat)
    requires ParseTx(p, input, dec).Ok?
    requires i < |p.wantFields|
    ensures var n := Min(|p.names|, |Decoded(p, input, dec)|);
      ParseTx(p, input, dec).value[i].None? <==> p.wantFields[i] !in p.names[..n]
    ensures forall j | 0 <= j < Min(|p.names|, |Decoded(p, input, dec)|) &&
                       p.names[j] == p.wantFields[i] &&
                       p.names[j] !in p.names[j + 1..Min(|p.names|, |Decoded(p, input, dec)|)] ::
      ParseTx(p, input, dec).value[i] == Some(Decoded(p, input, dec)[j])
  {
    var values := Decoded(p, input, dec);
    ZipDictKeys(p.names, values, p.wantFields[i]);
    forall j | 0 <= j < Min(|p.names|, |values|) && p.names[j] == p.wantFields[i] &&
               p.names[j] !in p.names[j + 1..Min(|p.names|, |values|)]
      ensures ParseTx(p, input, dec).value[i] == Some(values[j])
    {
      ZipDictValue(p.names, values, j);
    }
  }

  /** The hex-string and raw-byte forms of the same calldata give the decoder
      the same tail (`fromhex(s[10:])` against `b[4:]`), so `parse_tx` agrees
      on them. */
  lemma ParseTxHexAgreesWithBytes(p: TxDataParser, b: seq<byte>, dec: Decoder)
    ensures ArgumentTail(Some(Text("0x" + Hex(b)))) == ArgumentTail(Some(Raw(b)))
    ensures ParseTx(p, Some(Text("0x" + Hex(b))), dec) == ParseTx(p, Some(Raw(b)), dec)
  {
    HexTail(b);
  }

  lemma HexTail(b: seq<byte>)
    ensures ArgumentTail(Some(Text("0x" + Hex(b)))) == Ok(b[Min(4, |b|)..])
  {
    var k := Min(4, |b|);
    var s := "0x" + Hex(b);
    HexSplit(b, k);
    SuffixOfConcat("0x", Hex(b), 2 * k);
    assert s[Min(10, |s|)..] == Hex(b[k..]);
    FromHexHex(b[k..]);
  }

  lemma SuffixOfConcat(a: string, t: string, k: nat)
    requires k <= |t|
    ensures (a + t)[|a| + k..] == t[k..]
  {
  }

}
