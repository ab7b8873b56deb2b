/** The pure steps of on-chain proof verification (src/scripts/verifyProof.ts):
    flattening a proof into the `felt252[]` argument of `verify_proof`,
    reading the boolean verdict off the call result, and unpacking the
    `get_vertices` result. The wallet connection and the contract calls
    themselves are network I/O; the contract call is a parameter here. */
module VerifyProof {
  import opened Types
  import opened JsText

  /** A scalar inside a proof object: a field value or an array item. */
  datatype Scalar =
    | Str(s: string)
    | Num(n: int)     // a JavaScript number holding an integer
    | Big(n: int)     // a bigint
    | Bool(b: bool)
    | Null            // null or undefined

  /** A field of a proof object: a scalar or an array of scalars. */
  datatype Value = Single(scalar: Scalar) | Arr(items: seq<Scalar>)

  /** A proof: a bare string, or an object given by its field values in
      enumeration order. */
  datatype Proof = Whole(text: string) | Fields(values: seq<Value>)

  /** The SyntaxError `BigInt` throws, with the scalar it was given. */
  datatype FlattenError = BigIntSyntaxError(item: Scalar)

  type Felts = seq<string>

  /** From 1e21 on, `Number.prototype.toString` switches to exponent
      notation ("1e+21"), which `BigInt` does not accept. */
  const ExponentThreshold: int := 1_000_000_000_000_000_000_000

  /** 2^53: up to this magnitude every integer is a double of its own and
      `Number.prototype.toString` writes its exact digits. */
  const MaxExactInteger: int := 9_007_199_254_740_992

  predicate StartsWith0x(s: string) {
    |s| >= 2 && s[0] == '0' && s[1] == 'x'
  }

  /** `BigInt(x.toString())` for a scalar that is not null: `None` where it throws. */
  function BigIntOf(sc: Scalar): (r: Option<int>)
    requires !sc.Null?
    ensures sc.Str? ==> (r.Some? <==> IsIntegerLiteral(Trim(sc.s)))
    ensures sc.Num? && -MaxExactInteger <= sc.n <= MaxExactInteger ==> r == Some(sc.n)
    ensures sc.Num? && !(-ExponentThreshold < sc.n < ExponentThreshold) ==> r == None
    ensures sc.Big? ==> r == Some(sc.n)
    ensures sc.Bool? ==> r == None
  {
    match sc
    case Str(s) => StringToBigInt(s)
    case Num(n) =>
      if -ExponentThreshold < n < ExponentThreshold then
        DecimalReadBack(n);
        StringToBigInt(IntegerText(n, 10))
      else None
    case Big(n) =>
      DecimalReadBack(n);
      StringToBigInt(IntegerText(n, 10))
    case Bool(b) =>
      BooleanTextRejected(b);
      StringToBigInt(if b then "true" else "false")
  }

  /** The felts one scalar contributes: none for null, the string itself for
      a `0x` string, otherwise `"0x"` and the hexadecimal text of its integer
      value; an error where `BigInt` throws. */
  function ScalarFelts(sc: Scalar): (r: Result<Felts, FlattenError>)
    ensures sc.Null? ==> r == Ok([])
    ensures sc.Str? && StartsWith0x(sc.s) ==> r == Ok([sc.s])
    ensures r.Ok? && !sc.Null? ==> |r.value| == 1 && StartsWith0x(r.value[0])
    ensures r.Err? <==> !sc.Null? && !(sc.Str? && StartsWith0x(sc.s)) && BigIntOf(sc).None?
    ensures r.Err? ==> r.error == BigIntSyntaxError(sc)
  {
    if sc.Str? && StartsWith0x(sc.s) then Ok([sc.s])
    else if sc.Null? then Ok([])
    else
      match BigIntOf(sc)
      case Some(v) => Ok(["0x" + IntegerText(v, 16)])
      case None => Err(BigIntSyntaxError(sc))
  }

  /** Appending the output of the next step unless an earlier step threw. */
  function Then(done: Result<Felts, FlattenError>, next: Result<Felts, FlattenError>): Result<Felts, FlattenError> {
    if done.Err? then done
    else if next.Err? then next
    else Ok(done.value + next.value)
  }

  function ItemsFelts(items: seq<Scalar>): Result<Felts, FlattenError> {
    if items == [] then Ok([])
    else Then(ItemsFelts(items[..|items| - 1]), ScalarFelts(items[|items| - 1]))
  }

  function ValueFelts(v: Value): Result<Felts, FlattenError> {
    match v
    case Single(sc) => ScalarFelts(sc)
    case Arr(items) => ItemsFelts(items)
  }

  function FieldsFelts(values: seq<Value>): Result<Felts, FlattenError> {
    if values == [] then Ok([])
    else Then(FieldsFelts(values[..|values| - 1]), ValueFelts(values[|values| - 1]))
  }

  /** The specification of `convertProofToFelt252Array`. */
  function Flatten(proof: Proof): (r: Result<Felts, FlattenError>)
    ensures proof.Whole? ==> r.Ok? && |r.value| == 1
    ensures proof == Fields([]) ==> r == Ok([])
    ensures r.Err? ==> proof.Fields?
  {
    match proof
    case Whole(s) => Ok([if StartsWith0x(s) then s else "0x" + s])
    case Fields(values) => FieldsFelts(values)
  }

  /** Once a prefix of the fields throws, the whole conversion throws the same error. */
  lemma {:induction false} FieldsErrPrefix(values: seq<Value>, k: nat)
    requires k <= |values| && FieldsFelts(values[..k]).Err?
    ensures FieldsFelts(values) == FieldsFelts(values[..k])
    decreases |values|
  {
    if k < |values| {
      var init := values[..|values| - 1];
      assert init[..k] == values[..k];
      FieldsErrPrefix(init, k);
    } else {
      assert values[..k] == values;
    }
  }

  /** One step of the conversion: pushes the felt of `item` onto
      `flatProof`, or throws. */
  method PushScalar(flatProof: Felts, item: Scalar) returns (r: Result<Felts, FlattenError>)
    ensures r == Then(Ok(flatProof), ScalarFelts(item))
  {
    if item.Str? && StartsWith0x(item.s) {
      r := Ok(flatProof + [item.s]);
    } else if !item.Null? {
      var v := BigIntOf(item);
      if v.None? {
        return Err(BigIntSyntaxError(item));
      }
      r := Ok(flatProof + ["0x" + IntegerText(v.value, 16)]);
    } else {
      assert flatProof + [] == flatProof;
      r := Ok(flatProof);
    }
  }

  /** The inner `forEach` over the items of an array field. */
  method PushItems(flatProof: Felts, items: seq<Scalar>) returns (r: Result<Felts, FlattenError>)
    ensures r == Then(Ok(flatProof), ItemsFelts(items))
  {
    var acc := flatProof;
    for j := 0 to |items|
      invariant ItemsFelts(items[..j]).Ok?
      invariant acc == flatProof + ItemsFelts(items[..j]).value
    {
      assert items[..j + 1][..j] == items[..j];
      var next := PushScalar(acc, items[j]);
      if next.Err? {
        ItemsErrPrefix(items, j + 1);
        return next;
      }
      acc := next.value;
    }
    assert items[..|items|] == items;
    return Ok(acc);
  }

  /** The flattener as written: `push` into `flatProof` while walking the
      fields in order, leaving by the exception `BigInt` throws. */
  method ConvertProofToFelt252Array(proof: Proof) returns (r: Result<Felts, FlattenError>)
    ensures r == Flatten(proof)
  {
    var flatProof: Felts := [];
    match proof {
      case Fields(values) =>
        for i := 0 to |values|
          invariant FieldsFelts(values[..i]) == Ok(flatProof)
        {
          assert values[..i + 1][..i] == values[..i];
          assert FieldsFelts(values[..i + 1]) == Then(Ok(flatProof), ValueFelts(values[i]));
          var next;
          match values[i] {
            case Arr(items) => next := PushItems(flatProof, items);
            case Single(value) => next := PushScalar(flatProof, value);
          }
          if next.Err? {
            FieldsErrPrefix(values, i + 1);
            return next;
          }
          flatProof := next.value;
        }
        assert values[..|values|] == values;
        assert Flatten(proof) == FieldsFelts(values);
      case Whole(s) =>
        flatProof := flatProof + [if StartsWith0x(s) then s else "0x" + s];
        assert flatProof == [if StartsWith0x(s) then s else "0x" + s];
    }
    return Ok(flatProof);
  }

  lemma {:induction false} ItemsErrPrefix(items: seq<Scalar>, k: nat)
    requires k <= |items| && ItemsFelts(items[..k]).Err?
    ensures ItemsFelts(items) == ItemsFelts(items[..k])
    decreases |items|
  {
    if k < |items| {
      var init := items[..|items| - 1];
      assert init[..k] == items[..k];
      ItemsErrPrefix(init, k);
    } else {
      assert items[..k] == items;
    }
  }

  // ----- What the conversion promises -----

  /** A bare-string proof yields exactly one felt: the string itself when it
      starts with `0x`, otherwise the string behind a `0x` prefix, unchanged. */
  lemma WholeProofSingleFelt(s: string)
    ensures Flatten(Whole(s)).Ok? && |Flatten(Whole(s)).value| == 1
    ensures StartsWith0x(s) ==> Flatten(Whole(s)).value[0] == s
    ensures !StartsWith0x(s) ==> Flatten(Whole(s)).value[0] == "0x" + s
  {
  }

  /** An object proof without fields yields no felts. */
  lemma EmptyObjectNoFelts()
    ensures Flatten(Fields([])) == Ok([])
  {
  }

  lemma ThenOkEmpty(done: Result<Felts, FlattenError>)
    ensures Then(done, Ok([])) == done
  {
    if done.Ok? {
      assert done.value + [] == done.value;
    }
  }

  lemma ThenEmptyOk(next: Result<Felts, FlattenError>)
    ensures Then(Ok([]), next) == next
  {
    if next.Ok? {
      assert [] + next.value == next.value;
    }
  }

  lemma ThenAssociative(a: Result<Felts, FlattenError>, b: Result<Felts, FlattenError>, c: Result<Felts, FlattenError>)
    ensures Then(Then(a, b), c) == Then(a, Then(b, c))
  {
    if a.Ok? && b.Ok? && c.Ok? {
      assert (a.value + b.value) + c.value == a.value + (b.value + c.value);
    }
  }

  /** Items are converted in order: the felts of `a + b` are those of `a`
      followed by those of `b`, and the first error wins. */
  lemma {:induction false} ItemsConcat(a: seq<Scalar>, b: seq<Scalar>)
    ensures ItemsFelts(a + b) == Then(ItemsFelts(a), ItemsFelts(b))
    decreases |b|
  {
    if b == [] {
      assert a + b == a;
      ThenOkEmpty(ItemsFelts(a));
    } else {
      var init := b[..|b| - 1];
      assert (a + b)[..|a + b| - 1] == a + init;
      ItemsConcat(a, init);
      ThenAssociative(ItemsFelts(a), ItemsFelts(init), ScalarFelts(b[|b| - 1]));
    }
  }

  /** Fields are converted in enumeration order, each array field expanded
      in place: the felts of `a + b` are those of `a` followed by those of
      `b`, and the first error wins. */
  lemma {:induction false} FieldsConcat(a: seq<Value>, b: seq<Value>)
    ensures FieldsFelts(a + b) == Then(FieldsFelts(a), FieldsFelts(b))
    decreases |b|
  {
    if b == [] {
      assert a + b == a;
      ThenOkEmpty(FieldsFelts(a));
    } else {
      var init := b[..|b| - 1];
      assert (a + b)[..|a + b| - 1] == a + init;
      FieldsConcat(a, init);
      ThenAssociative(FieldsFelts(a), FieldsFelts(init), ValueFelts(b[|b| - 1]));
    }
  }

  /** The first field's felts come first, then those of the remaining fields. */
  lemma FieldsCons(v: Value, rest: seq<Value>)
    ensures FieldsFelts([v] + rest) == Then(ValueFelts(v), FieldsFelts(rest))
  {
    FieldsConcat([v], rest);
    assert [v][..0] == [];
    ThenEmptyOk(ValueFelts(v));
  }

  /** A felt produced for a scalar starts with `0x`. */
  lemma ScalarFeltsPrefixed(sc: Scalar)
    requires ScalarFelts(sc).Ok?
    ensures forall e :: e in ScalarFelts(sc).value ==> StartsWith0x(e)
  {
  }

  lemma {:induction false} ItemsFeltsPrefixed(items: seq<Scalar>)
    requires ItemsFelts(items).Ok?
    ensures forall e :: e in ItemsFelts(items).value ==> StartsWith0x(e)
  {
    if items != [] {
      ItemsFeltsPrefixed(items[..|items| - 1]);
      ScalarFeltsPrefixed(items[|items| - 1]);
    }
  }

  lemma {:induction false} FieldsFeltsPrefixed(values: seq<Value>)
    requires FieldsFelts(values).Ok?
    ensures forall e :: e in FieldsFelts(values).value ==> StartsWith0x(e)
  {
    if values != [] {
      FieldsFeltsPrefixed(values[..|values| - 1]);
      match values[|values| - 1]
      case Single(sc) => ScalarFeltsPrefixed(sc);
      case Arr(items) => ItemsFeltsPrefixed(items);
    }
  }

  /** Every felt the conversion emits starts with `0x`. */
  lemma FlattenPrefixed(proof: Proof)
    requires Flatten(proof).Ok?
    ensures forall e :: e in Flatten(proof).value ==> StartsWith0x(e)
  {
    if proof.Fields? {
      FieldsFeltsPrefixed(proof.values);
    }
  }

  /** How many felts a scalar is worth: none for null and undefined, one otherwise. */
  function ScalarCount(sc: Scalar): nat {
    if sc.Null? then 0 else 1
  }

  function ItemsCount(items: seq<Scalar>): nat {
    if items == [] then 0 else ScalarCount(items[0]) + ItemsCount(items[1..])
  }

  function FieldsCount(values: seq<Value>): nat {
    if values == [] then 0
    else
      (match values[0] case Single(sc) => ScalarCount(sc) case Arr(items) => ItemsCount(items))
      + FieldsCount(values[1..])
  }

  lemma {:induction false} ItemsCountSnoc(items: seq<Scalar>, sc: Scalar)
    ensures ItemsCount(items + [sc]) == ItemsCount(items) + ScalarCount(sc)
    decreases |items|
  {
    if items == [] {
      assert [] + [sc] == [sc];
      assert [sc][1..] == [];
    } else {
      assert (items + [sc])[1..] == items[1..] + [sc];
      ItemsCountSnoc(items[1..], sc);
    }
  }

  lemma {:induction false} FieldsCountSnoc(values: seq<Value>, v: Value)
    ensures FieldsCount(values + [v]) == FieldsCount(values) + FieldsCount([v])
    decreases |values|
  {
    if values == [] {
      assert [] + [v] == [v];
    } else {
      assert (values + [v])[1..] == values[1..] + [v];
      FieldsCountSnoc(values[1..], v);
    }
  }

  lemma {:induction false} ItemsFeltsLength(items: seq<Scalar>)
    requires ItemsFelts(items).Ok?
    ensures |ItemsFelts(items).value| == ItemsCount(items)
  {
    if items != [] {
      var init := items[..|items| - 1];
      ItemsFeltsLength(init);
      assert init + [items[|items| - 1]] == items;
      ItemsCountSnoc(init, items[|items| - 1]);
    }
  }

  /** The number of felts is the number of non-null scalars, counting the
      non-null items of every array field. */
  lemma {:induction false} FieldsFeltsLength(values: seq<Value>)
    requires FieldsFelts(values).Ok?
    ensures |FieldsFelts(values).value| == FieldsCount(values)
  {
    if values != [] {
      var init := values[..|values| - 1];
      var last := values[|values| - 1];
      FieldsFeltsLength(init);
      assert init + [last] == values;
      FieldsCountSnoc(init, last);
      assert [last][1..] == [];
      if last.Arr? {
        ItemsFeltsLength(last.items);
      }
    }
  }

  /** The item conversion succeeds exactly when every item converts. */
  lemma {:induction false} ItemsOkIff(items: seq<Scalar>)
    ensures ItemsFelts(items).Ok? <==> forall k :: 0 <= k < |items| ==> ScalarFelts(items[k]).Ok?
  {
    if items != [] {
      var init, last := items[..|items| - 1], items[|items| - 1];
      ItemsOkIff(init);
      assert ItemsFelts(items) == Then(ItemsFelts(init), ScalarFelts(last));
      if ItemsFelts(items).Ok? {
        forall k | 0 <= k < |items| ensures ScalarFelts(items[k]).Ok? {
          if k < |init| {
            assert init[k] == items[k];
          }
        }
      } else if ItemsFelts(init).Err? {
        var k :| 0 <= k < |init| && ScalarFelts(init[k]).Err?;
        assert init[k] == items[k];
      }
    }
  }

  /** The conversion of an object proof succeeds exactly when every field
      converts; otherwise it throws. */
  lemma FieldsOkIff(values: seq<Value>)
    ensures FieldsFelts(values).Ok? <==> forall k :: 0 <= k < |values| ==> ValueFelts(values[k]).Ok?
  {
    if FieldsFelts(values).Ok? {
      FieldsOkEach(values);
    } else {
      FieldsErrSome(values);
    }
  }

  lemma {:induction false} FieldsOkEach(values: seq<Value>)
    requires FieldsFelts(values).Ok?
    ensures forall k :: 0 <= k < |values| ==> ValueFelts(values[k]).Ok?
  {
    if values != [] {
      var init := values[..|values| - 1];
      FieldsOkEach(init);
      assert forall k :: 0 <= k < |init| ==> init[k] == values[k];
    }
  }

  lemma {:induction false} FieldsErrSome(values: seq<Value>)
    requires FieldsFelts(values).Err?
    ensures exists k :: 0 <= k < |values| && ValueFelts(values[k]).Err?
  {
    var init := values[..|values| - 1];
    if FieldsFelts(init).Err? {
      FieldsErrSome(init);
      var k :| 0 <= k < |init| && ValueFelts(init[k]).Err?;
      assert init[k] == values[k];
    } else {
      assert ValueFelts(values[|values| - 1]).Err?;
    }
  }

  /** A `0x` string, as a field or as an array item, is emitted unchanged. */
  lemma PrefixedStringPassesThrough(s: string)
    requires StartsWith0x(s)
    ensures ScalarFelts(Str(s)) == Ok([s])
    ensures Flatten(Fields([Single(Str(s))])) == Ok([s])
    ensures Flatten(Fields([Arr([Str(s)])])) == Ok([s])
  {
    assert [Single(Str(s))][..0] == [];
    assert [Arr([Str(s)])][..0] == [];
    assert [Str(s)][..0] == [];
    ThenEmptyOk(Ok([s]));
    assert FieldsFelts([Single(Str(s))]) == Then(FieldsFelts([]), ValueFelts(Single(Str(s))));
    assert ItemsFelts([Str(s)]) == Then(ItemsFelts([]), ScalarFelts(Str(s)));
    assert FieldsFelts([Arr([Str(s)])]) == Then(FieldsFelts([]), ValueFelts(Arr([Str(s)])));
  }

  /** A non-`0x` scalar whose integer value is `v >= 0` becomes `"0x"` and the
      hexadecimal digits of `v`, which `BigInt` reads back as `v`. */
  lemma ConvertedFeltDecodes(sc: Scalar, v: nat)
    requires !sc.Null? && !(sc.Str? && StartsWith0x(sc.s)) && BigIntOf(sc) == Some(v)
    ensures ScalarFelts(sc) == Ok(["0x" + Digits(v, 16)])
    ensures StringToBigInt(ScalarFelts(sc).value[0]) == Some(v)
  {
    HexReadBack(v);
  }

  /** A negative value is written `"0x-…"`, which is not a readable
      hexadecimal literal. */
  lemma NegativeFeltUnreadable(sc: Scalar, v: int)
    requires !sc.Null? && !(sc.Str? && StartsWith0x(sc.s)) && BigIntOf(sc) == Some(v) && v < 0
    ensures ScalarFelts(sc) == Ok(["0x-" + Digits(-v, 16)])
    ensures StringToBigInt(ScalarFelts(sc).value[0]) == None
  {
    var e := "0x" + IntegerText(v, 16);
    assert ScalarFelts(sc) == Ok([e]);
    assert e == "0x-" + Digits(-v, 16);
    assert ScalarFelts(sc).value[0] == e;
    NegativeHexUnreadable(v);
  }

  /** Integer numbers up to 2^53 in magnitude, bigints, and decimal strings
      all convert to their own value. */
  lemma IntegersConvert(n: int)
    ensures -MaxExactInteger <= n <= MaxExactInteger ==> BigIntOf(Num(n)) == Some(n)
    ensures BigIntOf(Big(n)) == Some(n)
    ensures BigIntOf(Str(IntegerText(n, 10))) == Some(n)
    ensures !StartsWith0x(IntegerText(n, 10))
  {
    DecimalReadBack(n);
    var t := IntegerText(n, 10);
    var d := Digits(if n < 0 then -n else n, 10);
    assert IsDigit(d[0], 10);
    assert n >= 0 && |t| >= 2 ==> t[1] == d[1] && IsDigit(d[1], 10);
  }

  /** The number 42, the bigint 42n and the string "42" give the same felt,
      and so do -42, -42n and "-42". */
  lemma SameValueSameFelt(n: int)
    requires -MaxExactInteger <= n <= MaxExactInteger
    ensures ScalarFelts(Num(n)) == ScalarFelts(Big(n)) == ScalarFelts(Str(IntegerText(n, 10)))
    ensures ScalarFelts(Num(n)) == Ok(["0x" + IntegerText(n, 16)])
  {
    IntegersConvert(n);
  }

  /** A boolean field or item throws: `BigInt("true")` and `BigInt("false")`
      are SyntaxErrors, and so is the whole conversion. */
  lemma BooleanThrows(b: bool, values: seq<Value>, k: nat)
    requires k < |values|
    requires values[k] == Single(Bool(b)) || (values[k].Arr? && Bool(b) in values[k].items)
    ensures ScalarFelts(Bool(b)) == Err(BigIntSyntaxError(Bool(b)))
    ensures Flatten(Fields(values)).Err?
  {
    BooleanTextRejected(b);
    FieldsOkIff(values);
    if values[k].Arr? {
      ItemsOkIff(values[k].items);
    }
  }

  /** Text that is neither a `0x` string nor, once trimmed, an integer
      literal throws; a `0x` string or a literal does not. */
  lemma NonLiteralTextThrows(s: string)
    ensures ScalarFelts(Str(s)).Err? <==> !StartsWith0x(s) && !IsIntegerLiteral(Trim(s))
    ensures ScalarFelts(Str(s)).Err? ==> ScalarFelts(Str(s)) == Err(BigIntSyntaxError(Str(s)))
  {
  }

  /** For instance `"abc"` throws. */
  lemma NonNumericTextThrows()
    ensures ScalarFelts(Str("abc")) == Err(BigIntSyntaxError(Str("abc")))
  {
    var t := "abc";
    TrimUnpadded(t);
    assert !IsDigit(t[0], 10) && !IsDigit(t[1], 10);
    NonLiteralTextThrows(t);
  }

  // ----- The verdict and the vertices -----

  /** What `contract.call("verify_proof", …)` resolves to: a `u256[]` or something else. */
  datatype CallResult = ArrayResult(items: seq<nat>) | NonArray

  /** The verdict: the call result is an array with at least one element. */
  predicate Verdict(result: CallResult): (valid: bool)
    ensures valid ==> result.ArrayResult?
    ensures result.ArrayResult? ==> (valid <==> result.items != [])
  {
    result.ArrayResult? && |result.items| > 0
  }

  /** An empty or non-array call result is never reported as valid. */
  lemma EmptyResultNeverValid()
    ensures !Verdict(ArrayResult([])) && !Verdict(NonArray)
  {
  }

  /** How the wallet connection ends: a wallet that is enabled, `connect`
      resolving to nothing, or `connect`/`enable` rejecting with a reason. */
  datatype Connection = Connected | NoWallet | ConnectFailed(reason: string)

  const WalletNotFoundMessage: string := "Wallet not found or connection rejected"

  /** What the `catch` of `verifyProof` rethrows: a connection failure, the
      conversion's SyntaxError, or the rejection of the contract call. */
  datatype VerifyError =
    | ConnectionError(reason: string)
    | ConversionError(error: FlattenError)
    | CallError(reason: string)

  /** `verifyProof`: connect to the wallet, flatten, pass the felts to the
      contract (`call`, which may reject), read the verdict. Each step that
      throws ends the attempt and its error is rethrown; later steps are not
      taken. */
  function VerifyWith(connection: Connection, proof: Proof, call: Felts -> Result<CallResult, string>)
    : (r: Result<bool, VerifyError>)
    ensures connection.NoWallet? ==> r == Err(ConnectionError(WalletNotFoundMessage))
    ensures connection.ConnectFailed? ==> r == Err(ConnectionError(connection.reason))
    ensures connection.Connected? && Flatten(proof).Err? ==> r == Err(ConversionError(Flatten(proof).error))
    ensures connection.Connected? && Flatten(proof).Ok? && call(Flatten(proof).value).Err? ==>
      r == Err(CallError(call(Flatten(proof).value).error))
    ensures r.Ok? <==> connection.Connected? && Flatten(proof).Ok? && call(Flatten(proof).value).Ok?
    ensures r.Ok? ==> (r.value <==> call(Flatten(proof).value).value.ArrayResult? && call(Flatten(proof).value).value.items != [])
  {
    match connection
    case NoWallet => Err(ConnectionError(WalletNotFoundMessage))
    case ConnectFailed(reason) => Err(ConnectionError(reason))
    case Connected =>
      match Flatten(proof)
      case Err(e) => Err(ConversionError(e))
      case Ok(felts) =>
        match call(felts)
        case Err(reason) => Err(CallError(reason))
        case Ok(result) => Ok(Verdict(result))
  }

  /** `getVertices`: the `get_vertices` call, which may reject (its reason
      is rethrown), then entries 0 and 1 of its result, the x and y
      coordinates; reading past the end yields `undefined`. */
  function GetVertices(call: Result<seq<Felts>, string>): (r: Result<(Option<Felts>, Option<Felts>), string>)
    ensures r.Err? <==> call.Err?
    ensures call.Err? ==> r.error == call.error
    ensures call.Ok? && |call.value| >= 2 ==> r == Ok((Some(call.value[0]), Some(call.value[1])))
    ensures r.Ok? ==> (r.value.0.None? <==> call.value == [])
    ensures r.Ok? ==> (r.value.1.Some? ==> r.value.0.Some?)
  {
    match call
    case Err(reason) => Err(reason)
    case Ok(result) =>
      Ok((if |result| > 0 then Some(result[0]) else None,
          if |result| > 1 then Some(result[1]) else None))
  }

  /** The contract's `(vertices_x, vertices_y)` pair comes back as the tuple
      `[vertices_x, vertices_y]`, in that order. */
  lemma GetVerticesOfPair(xs: Felts, ys: Felts)
    ensures GetVertices(Ok([xs, ys])) == Ok((Some(xs), Some(ys)))
  {
  }
}
