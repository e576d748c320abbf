/** The function selector of calldata or of a declaration (`getFunctionSignature`,
    `strToFunctionSignature`) and the argument-type string of a declaration
    (`getArgsFromDefinition`). */
module Signature {
  import opened Values
  import opened HexCodec

  /** `getFunctionSignature`: the selector of calldata given as a `0x` hex
      string (its first ten characters) or as raw bytes (`0x` and the hex of
      the first four bytes). Anything else fails. */
  function GetFunctionSignature(input: Field): (r: Result<string>)
    ensures r.Ok? <==> input.Some? && (input.value.Text? || input.value.Raw?)
    ensures input.Some? && input.value.Text? ==>
      var s := input.value.s;
      r.value <= s && |r.value| == Min(10, |s|)
    ensures input.Some? && input.value.Raw? ==>
      var b := input.value.b;
      && |r.value| == 2 + 2 * Min(4, |b|)
      && r.value[..2] == "0x"
      && FromHex(r.value[2..]) == Some(b[..Min(4, |b|)])
  {
    match input
    case Some(Text(s)) => Ok(if |s| <= 10 then s else s[..10])
    case Some(Raw(b)) =>
      var head := if |b| <= 4 then b else b[..4];
      FromHexHex(head);
      assert ("0x" + Hex(head))[2..] == Hex(head);
      assert head == b[..Min(4, |b|)];
      Ok("0x" + Hex(head))
    case _ => Err(UnsupportedInput)
  }

  /** The hex-string and the raw-byte form of the same calldata have the same
      selector, whatever the length of the calldata. */
  lemma SelectorOfHexIsSelectorOfBytes(b: seq<byte>)
    ensures GetFunctionSignature(Some(Text("0x" + Hex(b)))) == GetFunctionSignature(Some(Raw(b)))
  {
    if |b| > 4 {
      HexSplit(b, 4);
      PrefixOfConcat("0x", Hex(b), 8);
    }
  }

  lemma PrefixOfConcat(a: string, t: string, k: nat)
    requires k <= |t|
    ensures (a + t)[..|a| + k] == a + t[..k]
  {
  }

  /** `strToFunctionSignature`, given the keccak-256 digest of the
      declaration: `0x` and the hex of the digest's first four bytes. */
  function StrToFunctionSignature(digest: seq<byte>): (r: string)
    ensures |digest| >= 4 ==> |r| == 10
    ensures r == GetFunctionSignature(Some(Raw(digest))).value
  {
    "0x" + Hex(if |digest| <= 4 then digest else digest[..4])
  }

  /** Calldata whose first four bytes are those of the declaration's digest
      carries the declaration's selector. */
  lemma CalldataCarriesDeclarationSelector(digest: seq<byte>, calldata: seq<byte>)
    requires |digest| >= 4 && |calldata| >= 4
    requires calldata[..4] == digest[..4]
    ensures GetFunctionSignature(Some(Raw(calldata))) == Ok(StrToFunctionSignature(digest))
  {
    assert (if |calldata| <= 4 then calldata else calldata[..4]) == calldata[..4];
    assert (if |digest| <= 4 then digest else digest[..4]) == digest[..4];
  }

  // ---------------------------------------------------------------------------
  // Argument-type string

  /** Python's `s.split(sep)` for a one-character separator. */
  function Split(s: string, sep: char): (parts: seq<string>)
    ensures |parts| >= 1
    decreases |s|
  {
    if s == [] then [""]
    else
      var rest := Split(s[1..], sep);
      if s[0] == sep then [""] + rest else [[s[0]] + rest[0]] + rest[1..]
  }

  /** Python's `glue.join(parts)`. */
  function Join(glue: string, parts: seq<string>): string
  {
    if parts == [] then ""
    else if |parts| == 1 then parts[0]
    else parts[0] + glue + Join(glue, parts[1..])
  }

  /** `getArgsFromDefinition` as written: `"("` followed by the pieces after
      the first `(` joined with the empty string. */
  function ArgsFromDefinition(definition: string): string
  {
    "(" + Join("", Split(definition, '(')[1..])
  }

  /** The argument-type string the declaration evidently intends: the pieces
      after the first `(` joined back with `(`, so that nested tuple types
      keep their parentheses. */
  function SchemaOf(definition: string): string
  {
    "(" + Join("(", Split(definition, '(')[1..])
  }

  /** Reference definitions: the first position of a character, and a string
      with every occurrence of a character removed. */
  function FirstIndex(s: string, c: char): (i: nat)
    requires c in s
    ensures i < |s| && s[i] == c && c !in s[..i]
  {
    if s[0] == c then 0
    else
      assert c in s[1..] by { var k :| 0 <= k < |s| && s[k] == c; assert s[1..][k - 1] == c; }
      var j := FirstIndex(s[1..], c);
      assert s[..j + 1] == [s[0]] + s[1..][..j];
      1 + j
  }

  function Without(s: string, c: char): (r: string)
    ensures c !in r
  {
    if s == [] then "" else (if s[0] == c then "" else [s[0]]) + Without(s[1..], c)
  }

  lemma {:induction false} WithoutConcat(a: string, b: string, c: char)
    ensures Without(a + b, c) == Without(a, c) + Without(b, c)
  {
    if a == [] {
      assert a + b == b;
    } else {
      assert (a + b)[0] == a[0] && (a + b)[1..] == a[1..] + b;
      WithoutConcat(a[1..], b, c);
    }
  }

  lemma {:induction false} WithoutAbsent(s: string, c: char)
    requires c !in s
    ensures Without(s, c) == s
  {
    if s != [] {
      assert c !in s[1..];
      WithoutAbsent(s[1..], c);
    }
  }

  /** Splitting cuts at the first separator: the first piece is everything
      before it and the other pieces are the split of everything after it. */
  lemma {:induction false} SplitAtFirst(s: string, c: char)
    ensures c !in s ==> Split(s, c) == [s]
    ensures c in s ==> Split(s, c) == [s[..FirstIndex(s, c)]] + Split(s[FirstIndex(s, c) + 1..], c)
    decreases |s|
  {
    if s != [] && s[0] != c {
      SplitAtFirst(s[1..], c);
      if c in s {
        assert c in s[1..] by { var i := FirstIndex(s, c); assert s[1..][i - 1] == c; }
        assert FirstIndex(s, c) == 1 + FirstIndex(s[1..], c);
        assert s[..FirstIndex(s, c)] == [s[0]] + s[1..][..FirstIndex(s[1..], c)];
        assert s[FirstIndex(s, c) + 1..] == s[1..][FirstIndex(s[1..], c) + 1..];
      } else {
        assert c !in s[1..];
        assert [s[0]] + s[1..] == s;
      }
    }
  }

  lemma JoinCons(glue: string, head: string, rest: seq<string>)
    requires rest != []
    ensures Join(glue, [head] + rest) == head + glue + Join(glue, rest)
  {
    assert ([head] + rest)[1..] == rest;
  }

  /** Removing a character around one of its occurrences. */
  lemma WithoutAround(s: string, i: nat, c: char)
    requires i < |s| && s[i] == c
    ensures Without(s, c) == Without(s[..i], c) + Without(s[i + 1..], c)
  {
    var before, after := s[..i], s[i + 1..];
    calc {
      Without(s, c);
      { assert s == before + ([c] + after); }
      Without(before + ([c] + after), c);
      { WithoutConcat(before, [c] + after, c); }
      Without(before, c) + Without([c] + after, c);
      { WithoutConcat([c], after, c); assert Without([c], c) == ""; }
      Without(before, c) + Without(after, c);
    }
  }

  /** Joining the pieces with the separator gives back the string. */
  lemma {:induction false} JoinSplit(s: string, c: char)
    ensures Join([c], Split(s, c)) == s
    decreases |s|
  {
    SplitAtFirst(s, c);
    if c in s {
      var i := FirstIndex(s, c);
      JoinSplit(s[i + 1..], c);
      JoinCons([c], s[..i], Split(s[i + 1..], c));
      assert s == s[..i] + [c] + s[i + 1..];
    }
  }

  /** Joining the pieces with nothing removes every separator. */
  lemma {:induction false} JoinNothingSplit(s: string, c: char)
    ensures Join("", Split(s, c)) == Without(s, c)
    decreases |s|
  {
    SplitAtFirst(s, c);
    if c in s {
      var i := FirstIndex(s, c);
      var before, after := s[..i], s[i + 1..];
      var rest := Split(after, c);
      assert Split(s, c) == [before] + rest;
      calc {
        Join("", Split(s, c));
        { JoinCons("", before, rest); }
        before + Join("", rest);
        { JoinNothingSplit(after, c); }
        before + Without(after, c);
        { WithoutAbsent(before, c); }
        Without(before, c) + Without(after, c);
        { WithoutAround(s, i, c); }
        Without(s, c);
      }
    } else {
      WithoutAbsent(s, c);
    }
  }

  /** `getArgsFromDefinition` gives `"("` followed by everything after the
      first `(` with every later `(` removed, and just `"("` when the
      declaration has no `(`. */
  lemma ArgsFromDefinitionMeaning(definition: string)
    ensures '(' !in definition ==> ArgsFromDefinition(definition) == "("
    ensures '(' in definition ==>
      ArgsFromDefinition(definition) == "(" + Without(definition[FirstIndex(definition, '(') + 1..], '(')
  {
    SplitAtFirst(definition, '(');
    if '(' in definition {
      var after := definition[FirstIndex(definition, '(') + 1..];
      assert Split(definition, '(')[1..] == Split(after, '(');
      JoinNothingSplit(after, '(');
    } else {
      assert Split(definition, '(')[1..] == [];
    }
  }

  /** The intended schema is the declaration from its first `(` on, so that
      the name and the schema put together give back the declaration. */
  lemma SchemaOfMeaning(definition: string)
    ensures '(' !in definition ==> SchemaOf(definition) == "("
    ensures '(' in definition ==>
      var i := FirstIndex(definition, '(');
      SchemaOf(definition) == definition[i..] && definition[..i] + SchemaOf(definition) == definition
  {
    if '(' in definition {
      SchemaOfAfterParen(definition);
      CutAt(definition, FirstIndex(definition, '('));
    } else {
      SplitAtFirst(definition, '(');
      assert Split(definition, '(')[1..] == [];
    }
  }

  /** A string around one of its positions. */
  lemma CutAt(s: string, i: nat)
    requires i < |s|
    ensures s[i..] == [s[i]] + s[i + 1..] && s[..i] + s[i..] == s
  {
  }

  lemma SchemaOfAfterParen(definition: string)
    requires '(' in definition
    ensures SchemaOf(definition) == "(" + definition[FirstIndex(definition, '(') + 1..]
  {
    SplitAtFirst(definition, '(');
    var after := definition[FirstIndex(definition, '(') + 1..];
    assert Split(definition, '(')[1..] == Split(after, '(');
    JoinSplit(after, '(');
  }

  /** For a declaration with at most one `(`, which is every declaration
      without tuple-typed arguments, the two agree. */
  lemma ArgsFromDefinitionIsSchemaWithoutTuples(definition: string)
    requires '(' in definition ==> '(' !in definition[FirstIndex(definition, '(') + 1..]
    ensures ArgsFromDefinition(definition) == SchemaOf(definition)
  {
    ArgsFromDefinitionMeaning(definition);
    SchemaOfMeaning(definition);
    if '(' in definition {
      var i := FirstIndex(definition, '(');
      WithoutAbsent(definition[i + 1..], '(');
      assert definition[i..] == "(" + definition[i + 1..];
    }
  }

  /** For a declaration `name(tail` whose name holds no `(`:
      `getArgsFromDefinition` keeps `(` and the tail without its `(`s, the
      intended schema keeps `(` and the tail as it is. */
  lemma ArgsAfterName(name: string, tail: string)
    requires '(' !in name
    ensures ArgsFromDefinition(name + "(" + tail) == "(" + Without(tail, '(')
    ensures SchemaOf(name + "(" + tail) == "(" + tail
  {
    var d := name + "(" + tail;
    assert d[|name|] == '(' && d[..|name|] == name && d[|name| + 1..] == tail;
    assert FirstIndex(d, '(') == |name|;
    ArgsFromDefinitionMeaning(d);
    SchemaOfMeaning(d);
    assert d[|name|..] == "(" + tail;
  }

  /** A declaration `name(types` whose name and type list hold no `(`
      yields `(types`. */
  lemma ArgsOfPlainDeclaration(name: string, types: string)
    requires '(' !in name && '(' !in types
    ensures ArgsFromDefinition(name + "(" + types) == "(" + types
    ensures SchemaOf(name + "(" + types) == "(" + types
  {
    ArgsAfterName(name, types);
    WithoutAbsent(types, '(');
  }

  /** A tuple-typed argument loses its opening parenthesis: for
      `name((inner)rest` the type string handed to the decoder is
      `(inner)rest`, while the intended one is `((inner)rest`. */
  lemma ArgsFromDefinitionDropsTupleParen(name: string, inner: string, rest: string)
    requires '(' !in name && '(' !in inner && '(' !in rest
    ensures ArgsFromDefinition(name + "(" + ("(" + inner + ")" + rest)) == "(" + inner + ")" + rest
    ensures SchemaOf(name + "(" + ("(" + inner + ")" + rest)) == "(" + "(" + inner + ")" + rest
  {
    var tail := inner + ")" + rest;
    var d := name + "(" + ("(" + tail);
    assert d == name + "(" + ("(" + inner + ")" + rest);
    assert '(' !in tail by {
      forall i | 0 <= i < |tail| ensures tail[i] != '(' {
        if i < |inner| { assert tail[i] == inner[i]; }
        else if i > |inner| { assert tail[i] == rest[i - |inner| - 1]; }
      }
    }
    ArgsAfterName(name, "(" + tail);
    assert Without("(" + tail, '(') == tail by {
      WithoutConcat("(", tail, '(');
      assert Without("(", '(') == "";
      WithoutAbsent(tail, '(');
    }
    assert "(" + tail == "(" + inner + ")" + rest;
  }

  /** A small declaration that shows it: `f((uint8,bool))`, whose one
      argument is a pair, is handed to the decoder as `(uint8,bool))`. */
  lemma TupleDeclarationMisparsed()
    ensures ArgsFromDefinition("f" + "(" + ("(" + "uint8,bool" + ")" + ")")) == "(" + "uint8,bool" + ")" + ")"
    ensures SchemaOf("f" + "(" + ("(" + "uint8,bool" + ")" + ")")) == "(" + "(" + "uint8,bool" + ")" + ")"
  {
    var inner := "uint8,bool";
    assert '(' !in inner by {
      forall k | 0 <= k < |inner| ensures inner[k] != '(' { }
    }
    ArgsFromDefinitionDropsTupleParen("f", inner, ")");
  }

  // ---------------------------------------------------------------------------
  // Top-level types of a type-tuple string

  /** The number of top-level types in a type-tuple string `(t1,...,tn)`:
      one more than the commas outside nested parentheses, and none for
      `()` or an empty list. */
  function Arity(args: string): nat
  {
    if |args| < 2 || args == "()" then 0 else 1 + TopLevelCommas(args[1..], 0)
  }

  /** The commas at nesting depth zero, counting `(` and `)` as they come. */
  function TopLevelCommas(s: string, depth: nat): nat
  {
    if s == [] then 0
    else if s[0] == '(' then TopLevelCommas(s[1..], depth + 1)
    else if s[0] == ')' then TopLevelCommas(s[1..], if depth == 0 then 0 else depth - 1)
    else (if s[0] == ',' && depth == 0 then 1 else 0) + TopLevelCommas(s[1..], depth)
  }

  /** A type name with no tuple or list punctuation, such as `uint256[3]`. */
  predicate PlainType(t: string)
  {
    && t != ""
    && '(' !in t && ')' !in t && ',' !in t
  }

  lemma {:induction false} TopLevelCommasOfPlain(t: string, rest: string)
    requires '(' !in t && ')' !in t && ',' !in t
    ensures TopLevelCommas(t + rest, 0) == TopLevelCommas(rest, 0)
  {
    if t != [] {
      assert (t + rest)[0] == t[0] && (t + rest)[1..] == t[1..] + rest;
      assert '(' !in t[1..] && ')' !in t[1..] && ',' !in t[1..];
      TopLevelCommasOfPlain(t[1..], rest);
    } else {
      assert t + rest == rest;
    }
  }

  /** A comma-separated list of plain types followed by `)` has one comma
      fewer than types. */
  lemma {:induction false} TopLevelCommasOfList(types: seq<string>)
    requires |types| >= 1
    requires forall i | 0 <= i < |types| :: PlainType(types[i])
    ensures TopLevelCommas(Join(",", types) + ")", 0) == |types| - 1
  {
    assert PlainType(types[0]);
    if |types| == 1 {
      TopLevelCommasOfPlain(types[0], ")");
    } else {
      var rest := Join(",", types[1..]) + ")";
      assert Join(",", types) + ")" == types[0] + ("," + rest);
      TopLevelCommasOfPlain(types[0], "," + rest);
      assert ("," + rest)[1..] == rest;
      TopLevelCommasOfList(types[1..]);
    }
  }

  lemma {:induction false} JoinOfPlainHasNoParen(types: seq<string>)
    requires forall i | 0 <= i < |types| :: PlainType(types[i])
    ensures '(' !in Join(",", types) && ')' !in Join(",", types)
  {
    if |types| == 1 {
      assert PlainType(types[0]);
    } else if |types| > 1 {
      assert PlainType(types[0]);
      JoinOfPlainHasNoParen(types[1..]);
      var tail := Join(",", types[1..]);
      assert Join(",", types) == types[0] + ("," + tail);
      assert '(' !in "," + tail && ')' !in "," + tail;
    }
  }

  /** A declaration `name(t1,...,tn)` over plain types: both the written and
      the intended argument string are `(t1,...,tn)`, and it has n
      top-level types. */
  lemma ArgsOfTypeList(name: string, types: seq<string>)
    requires '(' !in name
    requires |types| >= 1
    requires forall i | 0 <= i < |types| :: PlainType(types[i])
    ensures ArgsFromDefinition(name + "(" + (Join(",", types) + ")")) == "(" + (Join(",", types) + ")")
    ensures SchemaOf(name + "(" + (Join(",", types) + ")")) == "(" + (Join(",", types) + ")")
    ensures Arity("(" + (Join(",", types) + ")")) == |types|
  {
    var list := Join(",", types) + ")";
    JoinOfPlainHasNoParen(types);
    assert '(' !in list;
    ArgsOfPlainDeclaration(name, list);
    TopLevelCommasOfList(types);
    var args := "(" + list;
    assert args[1..] == list;
    assert args != "()" by {
      if |types| == 1 { assert |types[0]| >= 1; assert |list| >= 2; }
      else { assert |list| >= 2; }
    }
  }
}
