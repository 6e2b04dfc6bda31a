/** The matrix jobs of the `strompy` extension: a `MatrixBuf` is at most 36
    numbers `d` read as a matrix with `n` columns; a piece of work is a
    left-hand matrix and a list of operations applied to it in turn. Jobs
    arrive as JSON, read here from a sequence of JSON tokens. Matrix
    arithmetic is a parameter (`dot`, the closure of `matrix_op!`); numbers
    are reals. */
module Strompy {
  import W = Wrappers

  // ---------------------------------------------------------------------------
  // Errors and outcomes

  /** What the JSON reader reports for a token of the wrong kind or a
      missing token. */
  datatype ReaderError = UnexpectedStructure | UnexpectedEndOfInput

  datatype StrompyError =
    | Json(message: string)
    | Struson(readerError: ReaderError)
    | ParseInt
    | InvalidDimensions

  const ExpectedD := "Unexpected key encountered, expected \"d\""
  const ExpectedN := "Unexpected key encountered, expected \"n\""
  const ExpectedCode := "Unexpected key encountered, expected \"code\""
  const ExpectedRhs := "Unexpected key encountered, expected \"rhs\""
  const ExpectedLhs := "Unexpected key encountered, expected \"lhs\""
  const ExpectedOp := "Unexpected key encountered, expected \"op\""
  const UnexpectedCode := "Unexpected Operation code"
  const CapacityPanic := "called `Result::unwrap()` on an `Err` value"

  /** A `StrompyResult` that may also panic; `:-` propagates both failures. */
  datatype Res<+T> = Ok(value: T) | Err(error: StrompyError) | Panic(reason: string) {
    predicate IsFailure() {
      !Ok?
    }

    function PropagateFailure<U>(): Res<U>
      requires IsFailure()
    {
      if Err? then Err(error) else Panic(reason)
    }

    function Extract(): T
      requires Ok?
    {
      value
    }
  }

  // ---------------------------------------------------------------------------
  // Matrices

  /** The storage of a `HeaplessVec<f64, 36>`. */
  type Data = d: seq<real> | |d| <= 36

  datatype MatrixBuf = MatrixBuf(d: Data, n: nat)

  /** An nalgebra view: `rows` by `cols` entries taken column by column from
      `data`. */
  datatype MatrixView = MatrixView(rows: nat, cols: nat, data: seq<real>)

  const DivideByZero := "attempt to divide by zero"

  /** `view`: `len(d) / n` rows of `n` columns over the leading entries of
      `d`. It divides by `n`, so `n == 0` panics. */
  function View(m: MatrixBuf): (r: Res<MatrixView>)
    ensures r.Panic? <==> m.n == 0
    ensures r.Ok? ==> r.value.rows == |m.d| / m.n && r.value.cols == m.n
    ensures r.Ok? ==> r.value.rows * r.value.cols <= |m.d| < (r.value.rows + 1) * r.value.cols
    ensures r.Ok? ==> r.value.data == m.d[..r.value.rows * r.value.cols]
  {
    if m.n == 0 then Panic(DivideByZero)
    else
      var rows := |m.d| / m.n;
      DivBounds(|m.d|, m.n);
      Ok(MatrixView(rows, m.n, m.d[..rows * m.n]))
  }

  lemma DivBounds(len: nat, n: nat)
    requires n > 0
    ensures (len / n) * n <= len < (len / n + 1) * n
  {
  }

  /** `try_const_view::<R, C>`: the view, if its shape is `(R, C)`. */
  function TryConstView(m: MatrixBuf, r: nat, c: nat): (res: Res<MatrixView>)
    ensures res.Panic? <==> m.n == 0
    ensures res == Err(InvalidDimensions) <==> m.n != 0 && (|m.d| / m.n, m.n) != (r, c)
    ensures res.Ok? ==> res == View(m) && res.value.rows == r && res.value.cols == c
  {
    var v :- View(m);
    if (v.rows, v.cols) != (r, c) then Err(InvalidDimensions) else Ok(v)
  }

  /** `From<MatrixBuf> for Vec<Vec<f64>>`: `chunks_exact(n)`, which panics
      for `n == 0` and drops a short last chunk. */
  function ToRows(m: MatrixBuf): (r: Res<seq<seq<real>>>)
    ensures r.Panic? <==> m.n == 0
    ensures r.Ok? ==> r.value == Chunks(m.d, m.n)
  {
    if m.n == 0 then Panic("chunk size must be non-zero") else Ok(Chunks(m.d, m.n))
  }

  function Chunks(d: seq<real>, n: nat): seq<seq<real>>
    requires n > 0
    decreases |d|
  {
    if |d| < n then [] else [d[..n]] + Chunks(d[n..], n)
  }

  function Flatten(rows: seq<seq<real>>): seq<real> {
    if |rows| == 0 then [] else rows[0] + Flatten(rows[1..])
  }

  /** Every chunk has exactly `n` entries, the chunks fill `d` up to a
      remainder shorter than `n`, and read in order they are `d`'s entries. */
  lemma {:induction false} ChunksCover(d: seq<real>, n: nat)
    requires n > 0
    ensures |Chunks(d, n)| * n <= |d| < (|Chunks(d, n)| + 1) * n
    ensures forall i :: 0 <= i < |Chunks(d, n)| ==> |Chunks(d, n)[i]| == n
    ensures Flatten(Chunks(d, n)) == d[..|Chunks(d, n)| * n]
    decreases |d|
  {
    if |d| >= n {
      var rest := d[n..];
      ChunksCover(rest, n);
      var c := Chunks(d, n);
      var k := |Chunks(rest, n)|;
      assert c == [d[..n]] + Chunks(rest, n);
      assert c[1..] == Chunks(rest, n);
      assert |c| * n == k * n + n;
      assert (|c| + 1) * n == (k + 1) * n + n;
      assert Flatten(c) == d[..n] + rest[..k * n];
      assert d[..n] + rest[..k * n] == d[..n + k * n];
    }
  }

  /** There are `len(d) / n` rows, each of exactly `n` entries, and read in
      order they are the entries of `d` up to the dropped remainder. */
  lemma ChunksShape(d: seq<real>, n: nat)
    requires n > 0
    ensures |Chunks(d, n)| == |d| / n
    ensures forall i :: 0 <= i < |Chunks(d, n)| ==> |Chunks(d, n)[i]| == n
    ensures Flatten(Chunks(d, n)) == d[..(|d| / n) * n]
  {
    ChunksCover(d, n);
    DivUnique(|d|, n, |Chunks(d, n)|);
  }

  lemma DivStep(len: nat, n: nat)
    requires 0 < n <= len
    ensures len / n == (len - n) / n + 1
  {
    var q := (len - n) / n;
    DivBounds(len - n, n);
    assert q * n + n == (q + 1) * n;
    assert (q + 1) * n + n == (q + 2) * n;
    DivUnique(len, n, q + 1);
  }

  /** The quotient is the one multiple that fits. */
  lemma DivUnique(x: nat, n: nat, q: nat)
    requires n > 0 && q * n <= x < (q + 1) * n
    ensures x / n == q
  {
    var d := x / n;
    DivBounds(x, n);
    if d < q {
      MulMono(d + 1, q, n);
    } else if d > q {
      MulMono(q + 1, d, n);
    }
  }

  lemma MulMono(a: nat, b: nat, n: nat)
    requires a <= b
    ensures a * n <= b * n
  {
  }

  /** The same test through row indices: row `i` is `d[i*n .. i*n + n]`. */
  lemma {:induction false} ChunkRow(d: seq<real>, n: nat, i: nat)
    requires n > 0 && i < |d| / n
    ensures |Chunks(d, n)| == |d| / n
    ensures (i + 1) * n <= |d| && Chunks(d, n)[i] == d[i * n..(i + 1) * n]
    decreases i
  {
    ChunksShape(d, n);
    DivStep(|d|, n);
    DivBounds(|d|, n);
    if i > 0 {
      var rest := d[n..];
      ChunkRow(rest, n, i - 1);
      assert Chunks(d, n)[i] == Chunks(rest, n)[i - 1];
      assert (i - 1) * n + n == i * n;
      assert rest[(i - 1) * n..i * n] == d[i * n..(i + 1) * n];
    }
  }

  // ---------------------------------------------------------------------------
  // Operations and pieces of work

  datatype Operation = Dot(rhs: MatrixBuf) | Add(rhs: MatrixBuf)

  /** `HeaplessVec<Operation, 5>`. */
  type Ops = s: seq<Operation> | |s| <= 5

  datatype PieceOfWork = PieceOfWork(lhs: MatrixBuf, op: Ops)

  /** The matrix dot product from nalgebra; it may panic. */
  type DotProduct = (MatrixView, MatrixView) -> W.Run<real>

  /** `Operation::eval`. Dot gives a 1x1 buffer holding the product of the
      two views; `Add` is `todo!()` and panics. */
  function Eval(op: Operation, lhs: MatrixBuf, dot: DotProduct): (r: Res<MatrixBuf>)
    ensures !r.Err?
    ensures r.Ok? ==> op.Dot? && r.value.n == 1 && |r.value.d| == 1
    ensures op.Dot? && lhs.n != 0 && op.rhs.n != 0 && dot(View(lhs).value, View(op.rhs).value).Done? ==>
      r == Ok(MatrixBuf([dot(View(lhs).value, View(op.rhs).value).value], 1))
  {
    match op
    case Dot(rhs) =>
      var l :- View(lhs);
      var m :- View(rhs);
      (match dot(l, m)
       case Done(x) => Ok(MatrixBuf([x], 1))
       case Abort(p) => Panic(p))
    case Add(_) => Panic("not yet implemented")
  }

  /** `try_fold` of `eval` over the operations, starting from `lhs`. */
  function Fold(lhs: MatrixBuf, ops: seq<Operation>, dot: DotProduct): Res<MatrixBuf>
    decreases |ops|
  {
    if |ops| == 0 then Ok(lhs)
    else
      var m :- Eval(ops[0], lhs, dot);
      Fold(m, ops[1..], dot)
  }

  /** `PieceOfWork::exec`. */
  function Exec(work: PieceOfWork, dot: DotProduct): Res<MatrixBuf> {
    Fold(work.lhs, work.op, dot)
  }

  /** The fold over `a + b` is the fold over `b` from where the fold over
      `a` ended; in particular a failure in `a` skips all of `b`. */
  lemma {:induction false} FoldAppend(lhs: MatrixBuf, a: seq<Operation>, b: seq<Operation>, dot: DotProduct)
    ensures Fold(lhs, a + b, dot) == (var m :- Fold(lhs, a, dot); Fold(m, b, dot))
    decreases |a|
  {
    if |a| == 0 {
      assert a + b == b;
    } else {
      assert (a + b)[0] == a[0] && (a + b)[1..] == a[1..] + b;
      match Eval(a[0], lhs, dot)
      case Ok(m) => FoldAppend(m, a[1..], b, dot);
      case Err(_) =>
      case Panic(_) =>
    }
  }

  /** The first failing operation decides the outcome. */
  lemma FoldStopsAtFailure(lhs: MatrixBuf, a: seq<Operation>, b: seq<Operation>, dot: DotProduct)
    requires Fold(lhs, a, dot).IsFailure()
    ensures Fold(lhs, a + b, dot) == Fold(lhs, a, dot)
  {
    FoldAppend(lhs, a, b, dot);
  }

  /** A piece of work with at least one operation that succeeds ends in a
      1x1 buffer. */
  lemma {:induction false} ExecShape(lhs: MatrixBuf, ops: seq<Operation>, dot: DotProduct)
    requires |ops| > 0 && Fold(lhs, ops, dot).Ok?
    ensures Fold(lhs, ops, dot).value.n == 1 && |Fold(lhs, ops, dot).value.d| == 1
    decreases |ops|
  {
    var m := Eval(ops[0], lhs, dot).value;
    if |ops| > 1 {
      ExecShape(m, ops[1..], dot);
    }
  }

  // ---------------------------------------------------------------------------
  // The JSON token reader

  datatype Token =
    | BeginObject | EndObject | BeginArray | EndArray
    | Name(name: string) | Number(number: real) | Str(text: string)

  function Expect(ts: seq<Token>, t: Token): (r: Res<seq<Token>>)
    ensures r.Ok? ==> |ts| > 0 && ts[0] == t && r.value == ts[1..]
    ensures r.IsFailure() ==> r.Err? && r.error.Struson?
  {
    if |ts| == 0 then Err(Struson(UnexpectedEndOfInput))
    else if ts[0] == t then Ok(ts[1..])
    else Err(Struson(UnexpectedStructure))
  }

  function NextName(ts: seq<Token>): (r: Res<(string, seq<Token>)>)
    ensures r.Ok? ==> |ts| > 0 && ts[0] == Name(r.value.0) && r.value.1 == ts[1..]
  {
    if |ts| == 0 then Err(Struson(UnexpectedEndOfInput))
    else if ts[0].Name? then Ok((ts[0].name, ts[1..]))
    else Err(Struson(UnexpectedStructure))
  }

  function NextNumber(ts: seq<Token>): (r: Res<(real, seq<Token>)>)
    ensures r.Ok? ==> |ts| > 0 && ts[0] == Number(r.value.0) && r.value.1 == ts[1..]
  {
    if |ts| == 0 then Err(Struson(UnexpectedEndOfInput))
    else if ts[0].Number? then Ok((ts[0].number, ts[1..]))
    else Err(Struson(UnexpectedStructure))
  }

  function NextStr(ts: seq<Token>): (r: Res<(string, seq<Token>)>)
    ensures r.Ok? ==> |ts| > 0 && ts[0] == Str(r.value.0) && r.value.1 == ts[1..]
  {
    if |ts| == 0 then Err(Struson(UnexpectedEndOfInput))
    else if ts[0].Str? then Ok((ts[0].text, ts[1..]))
    else Err(Struson(UnexpectedStructure))
  }

  /** `has_next` inside an array: another value follows unless the array ends. */
  function HasNext(ts: seq<Token>): (r: Res<bool>)
    ensures r.Ok? <==> |ts| > 0
    ensures r.Ok? ==> r.value == (ts[0] != EndArray)
  {
    if |ts| == 0 then Err(Struson(UnexpectedEndOfInput)) else Ok(ts[0] != EndArray)
  }

  /** `let "key" = reader.next_name()? else { return Err(Json(message)) }`. */
  function ExpectName(ts: seq<Token>, key: string, message: string): (r: Res<seq<Token>>)
    ensures r.Ok? ==> |ts| > 0 && ts[0] == Name(key) && r.value == ts[1..]
    ensures |ts| > 0 && ts[0].Name? && ts[0].name != key ==> r == Err(Json(message))
  {
    var p :- NextName(ts);
    if p.0 == key then Ok(p.1) else Err(Json(message))
  }

  /** `next_number::<usize>()`: a whole number in the 64-bit range. */
  function ToUsize(x: real): (r: Res<nat>)
    ensures r.Ok? <==> x.Floor as real == x && 0.0 <= x < 18446744073709551616.0
    ensures r.Ok? ==> r.value as real == x
    ensures r.IsFailure() ==> r == Err(ParseInt)
  {
    if x.Floor as real == x && 0.0 <= x < 18446744073709551616.0 then Ok(x.Floor) else Err(ParseInt)
  }

  // ---------------------------------------------------------------------------
  // `MatrixBuf::deserialize`

  /** The `while reader.has_next()` loop pushing into `d`: the push past 36
      entries fails its `unwrap`. */
  function ReadNumbers(ts: seq<Token>, d: Data): (r: Res<(Data, seq<Token>)>)
    ensures r.Ok? ==> |r.value.1| <= |ts| && |r.value.1| > 0 && r.value.1[0] == EndArray
    decreases |ts|
  {
    var more :- HasNext(ts);
    if !more then Ok((d, ts))
    else
      var p :- NextNumber(ts);
      if |d| == 36 then Panic(CapacityPanic) else ReadNumbers(p.1, d + [p.0])
  }

  /** What follows the numbers: `]`, `"n"`, the column count and `}`. */
  function ReadTrailer(ts: seq<Token>, d: Data): Res<(MatrixBuf, seq<Token>)> {
    var t1 :- Expect(ts, EndArray);
    var t2 :- ExpectName(t1, "n", ExpectedN);
    var q :- NextNumber(t2);
    var n :- ToUsize(q.0);
    var t3 :- Expect(q.1, EndObject);
    Ok((MatrixBuf(d, n), t3))
  }

  function ReadMatrixBuf(ts: seq<Token>): (r: Res<(MatrixBuf, seq<Token>)>)
    ensures r.Ok? ==> |r.value.1| < |ts|
  {
    var t1 :- Expect(ts, BeginObject);
    var t2 :- ExpectName(t1, "d", ExpectedD);
    var t3 :- Expect(t2, BeginArray);
    var p :- ReadNumbers(t3, []);
    ReadTrailer(p.1, p.0)
  }

  method DeserializeMatrixBuf(tokens: seq<Token>) returns (r: Res<(MatrixBuf, seq<Token>)>)
    ensures r == ReadMatrixBuf(tokens)
  {
    var ts :- Expect(tokens, BeginObject);
    ts :- ExpectName(ts, "d", ExpectedD);
    ts :- Expect(ts, BeginArray);
    ghost var start := ts;
    var d: Data := [];
    while true
      invariant ReadNumbers(start, []) == ReadNumbers(ts, d)
      decreases |ts|
    {
      var more :- HasNext(ts);
      if !more {
        break;
      }
      var p :- NextNumber(ts);
      if |d| == 36 {
        return Panic(CapacityPanic);
      }
      d := d + [p.0];
      ts := p.1;
    }
    var closed := Expect(ts, EndArray);
    ts := closed.value;
    ts :- ExpectName(ts, "n", ExpectedN);
    var q :- NextNumber(ts);
    var n :- ToUsize(q.0);
    ts :- Expect(q.1, EndObject);
    r := Ok((MatrixBuf(d, n), ts));
  }

  // ---------------------------------------------------------------------------
  // `Operation::deserialize`

  function ReadOperation(ts: seq<Token>): (r: Res<(Operation, seq<Token>)>)
    ensures r.Ok? ==> |r.value.1| < |ts| && r.value.0.Dot?
  {
    var t1 :- Expect(ts, BeginObject);
    var t2 :- ExpectName(t1, "code", ExpectedCode);
    var c :- NextStr(t2);
    if c.0 != "dot" then Err(Json(UnexpectedCode))
    else
      var t3 :- ExpectName(c.1, "rhs", ExpectedRhs);
      var m :- ReadMatrixBuf(t3);
      var t4 :- Expect(m.1, EndObject);
      Ok((Dot(m.0), t4))
  }

  // ---------------------------------------------------------------------------
  // `PieceOfWork::exec_streamingly`

  /** The loop over the `"op"` array: each operation is read and applied
      before the next one is read. */
  function StreamOps(ts: seq<Token>, res: MatrixBuf, dot: DotProduct): Res<(MatrixBuf, seq<Token>)>
    decreases |ts|
  {
    var more :- HasNext(ts);
    if !more then Ok((res, ts))
    else
      var p :- ReadOperation(ts);
      var m :- Eval(p.0, res, dot);
      StreamOps(p.1, m, dot)
  }

  function ExecStream(ts: seq<Token>, dot: DotProduct): Res<(MatrixBuf, seq<Token>)> {
    var t1 :- Expect(ts, BeginObject);
    var t2 :- ExpectName(t1, "lhs", ExpectedLhs);
    var l :- ReadMatrixBuf(t2);
    StreamOpArray(l.1, l.0, dot)
  }

  /** `"op": [..]}` after the left-hand matrix. */
  function StreamOpArray(ts: seq<Token>, lhs: MatrixBuf, dot: DotProduct): Res<(MatrixBuf, seq<Token>)> {
    var t3 :- ExpectName(ts, "op", ExpectedOp);
    var t4 :- Expect(t3, BeginArray);
    var p :- StreamOps(t4, lhs, dot);
    var t5 :- Expect(p.1, EndArray);
    var t6 :- Expect(t5, EndObject);
    Ok((p.0, t6))
  }

  method ExecStreamingly(tokens: seq<Token>, dot: DotProduct) returns (r: Res<(MatrixBuf, seq<Token>)>)
    ensures r == ExecStream(tokens, dot)
  {
    var ts :- Expect(tokens, BeginObject);
    ts :- ExpectName(ts, "lhs", ExpectedLhs);
    var l := DeserializeMatrixBuf(ts);
    if l.IsFailure() {
      return l.PropagateFailure();
    }
    ts :- ExpectName(l.value.1, "op", ExpectedOp);
    ts :- Expect(ts, BeginArray);
    ghost var start := ts;
    var res := l.value.0;
    while true
      invariant StreamOps(start, l.value.0, dot) == StreamOps(ts, res, dot)
      decreases |ts|
    {
      var more :- HasNext(ts);
      if !more {
        break;
      }
      var p :- ReadOperation(ts);
      res :- Eval(p.0, res, dot);
      ts := p.1;
    }
    var closed := Expect(ts, EndArray);
    ts := closed.value;
    ts :- Expect(ts, EndObject);
    r := Ok((res, ts));
  }

  // ---------------------------------------------------------------------------
  // Encoding: the JSON a job is written as

  function NumberTokens(d: seq<real>): seq<Token> {
    if |d| == 0 then [] else [Number(d[0])] + NumberTokens(d[1..])
  }

  /** `{"d": [..], "n": n}` for any list of numbers. */
  function MatrixTokens(d: seq<real>, n: nat): seq<Token> {
    [BeginObject, Name("d"), BeginArray] + NumberTokens(d) + [EndArray, Name("n"), Number(n as real), EndObject]
  }

  function EncodeMatrixBuf(m: MatrixBuf): seq<Token> {
    MatrixTokens(m.d, m.n)
  }

  /** `{"code": "dot", "rhs": ..}`. */
  function EncodeDot(rhs: MatrixBuf): seq<Token> {
    [BeginObject, Name("code"), Str("dot"), Name("rhs")] + EncodeMatrixBuf(rhs) + [EndObject]
  }

  function EncodeDots(rhss: seq<MatrixBuf>): seq<Token> {
    if |rhss| == 0 then [] else EncodeDot(rhss[0]) + EncodeDots(rhss[1..])
  }

  function Dots(rhss: seq<MatrixBuf>): (ops: seq<Operation>)
    ensures |ops| == |rhss|
  {
    if |rhss| == 0 then [] else [Dot(rhss[0])] + Dots(rhss[1..])
  }

  /** `{"lhs": .., "op": [..]}` with dot operations only. */
  function EncodeWork(lhs: MatrixBuf, rhss: seq<MatrixBuf>): seq<Token> {
    [BeginObject, Name("lhs")] + EncodeMatrixBuf(lhs) + [Name("op"), BeginArray] + EncodeDots(rhss) + [EndArray, EndObject]
  }

  predicate Encodable(m: MatrixBuf) {
    m.n < 0x1_0000_0000_0000_0000
  }

  lemma {:induction false} ReadNumbersEncoded(d: seq<real>, acc: Data, rest: seq<Token>)
    requires |acc| + |d| <= 36
    ensures ReadNumbers(NumberTokens(d) + [EndArray] + rest, acc) == Ok((acc + d, [EndArray] + rest))
    decreases |d|
  {
    if |d| == 0 {
      assert NumberTokens(d) + [EndArray] + rest == [EndArray] + rest;
      assert acc + d == acc;
    } else {
      ReadNumbersCons(d, acc, rest);
      ReadNumbersEncoded(d[1..], acc + [d[0]], rest);
      assert (acc + [d[0]]) + d[1..] == acc + d;
    }
  }

  /** The first written number is read into a buffer with room left. */
  lemma ReadNumbersCons(d: seq<real>, acc: Data, rest: seq<Token>)
    requires |d| > 0 && |acc| < 36
    ensures ReadNumbers(NumberTokens(d) + [EndArray] + rest, acc)
         == ReadNumbers(NumberTokens(d[1..]) + [EndArray] + rest, acc + [d[0]])
  {
    var ts := NumberTokens(d) + [EndArray] + rest;
    assert ts == [Number(d[0])] + (NumberTokens(d[1..]) + [EndArray] + rest);
    assert ts[1..] == NumberTokens(d[1..]) + [EndArray] + rest;
  }

  /** More than 36 numbers panic on the push past the capacity. */
  lemma {:induction false} ReadNumbersOverflow(d: seq<real>, acc: Data, rest: seq<Token>)
    requires |acc| + |d| > 36
    ensures ReadNumbers(NumberTokens(d) + [EndArray] + rest, acc) == Panic(CapacityPanic)
    decreases |d|
  {
    var ts := NumberTokens(d) + [EndArray] + rest;
    assert ts == [Number(d[0])] + (NumberTokens(d[1..]) + [EndArray] + rest);
    assert ts[1..] == NumberTokens(d[1..]) + [EndArray] + rest;
    if |acc| < 36 {
      ReadNumbersOverflow(d[1..], acc + [d[0]], rest);
    }
  }

  lemma MatrixTokensSplit(d: seq<real>, n: nat, rest: seq<Token>)
    ensures MatrixTokens(d, n) + rest ==
      [BeginObject, Name("d"), BeginArray] + (NumberTokens(d) + [EndArray] + ([Name("n"), Number(n as real), EndObject] + rest))
  {
  }

  /** Reading back a written buffer gives the buffer and leaves what follows. */
  lemma MatrixBufRoundTrip(m: MatrixBuf, rest: seq<Token>)
    requires Encodable(m)
    ensures ReadMatrixBuf(EncodeMatrixBuf(m) + rest) == Ok((m, rest))
  {
    var tail := [Name("n"), Number(m.n as real), EndObject] + rest;
    MatrixTokensSplit(m.d, m.n, rest);
    ReadNumbersEncoded(m.d, [], tail);
    assert [] + m.d == m.d;
    var t3 := NumberTokens(m.d) + [EndArray] + tail;
    assert ReadNumbers(t3, []) == Ok((m.d, [EndArray] + tail));
    assert ([EndArray] + tail)[1..] == tail;
    assert ReadTrailer([EndArray] + tail, m.d) == Ok((m, rest));
  }

  /** A `"d"` array of more than 36 numbers panics. */
  lemma TooManyNumbers(d: seq<real>, n: nat, rest: seq<Token>)
    requires |d| > 36
    ensures ReadMatrixBuf(MatrixTokens(d, n) + rest) == Panic(CapacityPanic)
  {
    var tail := [Name("n"), Number(n as real), EndObject] + rest;
    MatrixTokensSplit(d, n, rest);
    ReadNumbersOverflow(d, [], tail);
  }

  /** Keys out of order are rejected with a Json error. */
  lemma MatrixKeyOrder(key: string, rest: seq<Token>)
    requires key != "d"
    ensures ReadMatrixBuf([BeginObject, Name(key)] + rest) == Err(Json(ExpectedD))
  {
    var ts := [BeginObject, Name(key)] + rest;
    assert ts[1..] == [Name(key)] + rest;
  }

  lemma ColumnKeyOrder(key: string, rest: seq<Token>)
    requires key != "n"
    ensures ReadTrailer([EndArray, Name(key)] + rest, []) == Err(Json(ExpectedN))
  {
    var ts := [EndArray, Name(key)] + rest;
    assert ts[1..] == [Name(key)] + rest;
  }

  lemma OpCodeKeyOrder(key: string, rest: seq<Token>)
    requires key != "code"
    ensures ReadOperation([BeginObject, Name(key)] + rest) == Err(Json(ExpectedCode))
  {
    var ts := [BeginObject, Name(key)] + rest;
    assert ts[1..] == [Name(key)] + rest;
  }

  /** Any op code but `"dot"`, `"add"` included, is rejected. */
  lemma UnknownOpCode(code: string, rest: seq<Token>)
    requires code != "dot"
    ensures ReadOperation([BeginObject, Name("code"), Str(code)] + rest) == Err(Json(UnexpectedCode))
  {
    var ts := [BeginObject, Name("code"), Str(code)] + rest;
    assert ts[1..] == [Name("code"), Str(code)] + rest;
    assert ts[1..][1..] == [Str(code)] + rest;
  }

  lemma RhsKeyOrder(key: string, rest: seq<Token>)
    requires key != "rhs"
    ensures ReadOperation([BeginObject, Name("code"), Str("dot"), Name(key)] + rest) == Err(Json(ExpectedRhs))
  {
    var ts := [BeginObject, Name("code"), Str("dot"), Name(key)] + rest;
    assert ts[1..] == [Name("code"), Str("dot"), Name(key)] + rest;
    assert ts[1..][1..] == [Str("dot"), Name(key)] + rest;
    assert ts[1..][1..][1..] == [Name(key)] + rest;
  }

  lemma LhsKeyOrder(key: string, rest: seq<Token>, dot: DotProduct)
    requires key != "lhs"
    ensures ExecStream([BeginObject, Name(key)] + rest, dot) == Err(Json(ExpectedLhs))
  {
    var ts := [BeginObject, Name(key)] + rest;
    assert ts[1..] == [Name(key)] + rest;
  }

  lemma OperationRoundTrip(rhs: MatrixBuf, rest: seq<Token>)
    requires Encodable(rhs)
    ensures ReadOperation(EncodeDot(rhs) + rest) == Ok((Dot(rhs), rest))
  {
    var ts := EncodeDot(rhs) + rest;
    var inner := EncodeMatrixBuf(rhs) + ([EndObject] + rest);
    assert ts == [BeginObject, Name("code"), Str("dot"), Name("rhs")] + inner;
    MatrixBufRoundTrip(rhs, [EndObject] + rest);
    assert ts[1..][1..][1..][1..] == inner;
  }

  function Located(r: Res<MatrixBuf>, rest: seq<Token>): Res<(MatrixBuf, seq<Token>)> {
    match r
    case Ok(m) => Ok((m, rest))
    case Err(e) => Err(e)
    case Panic(p) => Panic(p)
  }

  /** Streaming the written operations computes the in-memory fold. */
  lemma {:induction false} StreamOpsEncoded(rhss: seq<MatrixBuf>, res: MatrixBuf, rest: seq<Token>, dot: DotProduct)
    requires forall i :: 0 <= i < |rhss| ==> Encodable(rhss[i])
    ensures StreamOps(EncodeDots(rhss) + ([EndArray] + rest), res, dot) == Located(Fold(res, Dots(rhss), dot), [EndArray] + rest)
    decreases |rhss|
  {
    var tail := [EndArray] + rest;
    if |rhss| == 0 {
      assert EncodeDots(rhss) + tail == tail;
    } else {
      var after := EncodeDots(rhss[1..]) + tail;
      assert EncodeDots(rhss) + tail == EncodeDot(rhss[0]) + after;
      OperationRoundTrip(rhss[0], after);
      assert Dots(rhss)[0] == Dot(rhss[0]) && Dots(rhss)[1..] == Dots(rhss[1..]);
      match Eval(Dot(rhss[0]), res, dot)
      case Ok(m) => StreamOpsEncoded(rhss[1..], m, rest, dot);
      case Err(_) =>
      case Panic(_) =>
    }
  }

  /** `exec_streamingly` on a written piece of work computes what `exec`
      computes on it in memory. */
  lemma ExecStreamMatchesFold(lhs: MatrixBuf, rhss: seq<MatrixBuf>, rest: seq<Token>, dot: DotProduct)
    requires Encodable(lhs) && forall i :: 0 <= i < |rhss| ==> Encodable(rhss[i])
    ensures ExecStream(EncodeWork(lhs, rhss) + rest, dot) == Located(Fold(lhs, Dots(rhss), dot), rest)
  {
    var afterLhs := [Name("op"), BeginArray] + EncodeDots(rhss) + [EndArray, EndObject] + rest;
    var ts := EncodeWork(lhs, rhss) + rest;
    assert ts == [BeginObject, Name("lhs")] + (EncodeMatrixBuf(lhs) + afterLhs);
    assert ts[1..][1..] == EncodeMatrixBuf(lhs) + afterLhs;
    MatrixBufRoundTrip(lhs, afterLhs);
    OpArrayEncoded(lhs, rhss, rest, dot);
  }

  lemma OpArrayEncoded(lhs: MatrixBuf, rhss: seq<MatrixBuf>, rest: seq<Token>, dot: DotProduct)
    requires forall i :: 0 <= i < |rhss| ==> Encodable(rhss[i])
    ensures StreamOpArray([Name("op"), BeginArray] + EncodeDots(rhss) + [EndArray, EndObject] + rest, lhs, dot) ==
      Located(Fold(lhs, Dots(rhss), dot), rest)
  {
    var tail := [EndArray] + ([EndObject] + rest);
    var ops := EncodeDots(rhss) + tail;
    var ts := [Name("op"), BeginArray] + EncodeDots(rhss) + [EndArray, EndObject] + rest;
    assert ts == [Name("op"), BeginArray] + ops;
    assert ts[1..][1..] == ops;
    StreamOpsEncoded(rhss, lhs, [EndObject] + rest, dot);
    assert tail[1..] == [EndObject] + rest;
  }

  // ---------------------------------------------------------------------------
  // `matrix_op!`

  /** The shape check of `matrix_op!` and its dispatch on 1..6 rows and
      columns. */
  function OpShape(lhs: MatrixBuf, rhs: MatrixBuf): (r: Res<(nat, nat)>)
    ensures r == Err(InvalidDimensions) <==>
      lhs.n != 0 && rhs.n != 0 && (|lhs.d| / lhs.n, lhs.n) != (|rhs.d| / rhs.n, rhs.n)
    ensures r.Ok? ==> lhs.n != 0 && rhs.n != 0 && r.value == (|lhs.d| / lhs.n, lhs.n) == (|rhs.d| / rhs.n, rhs.n)
    ensures r.Ok? ==> 1 <= r.value.0 <= 6 && 1 <= r.value.1 <= 6
  {
    var l :- View(lhs);
    var m :- View(rhs);
    if (l.rows, l.cols) != (m.rows, m.cols) then Err(InvalidDimensions)
    else if !(1 <= l.rows <= 6) then Panic("MatrixBufs can have at most 6 rows")
    else if !(1 <= l.cols <= 6) then Panic("MatrixBufs can have at most 6 cols")
    else Ok((l.rows, l.cols))
  }

  /** The closure's `R x C` result, as a slice, `R` and `C` the common shape. */
  type MatrixFn = (MatrixBuf, MatrixBuf) -> seq<real>

  /** `matrix_op!` as written: the result gets `n = R * C` columns. */
  function MatrixOpAsWritten(lhs: MatrixBuf, rhs: MatrixBuf, f: MatrixFn): Res<MatrixBuf> {
    var s :- OpShape(lhs, rhs);
    var out := f(lhs, rhs);
    if |out| > 36 then Panic(CapacityPanic) else Ok(MatrixBuf(out, s.0 * s.1))
  }

  /** `matrix_op!` with the result given the operands' `n = C` columns. */
  function MatrixOp(lhs: MatrixBuf, rhs: MatrixBuf, f: MatrixFn): Res<MatrixBuf> {
    var s :- OpShape(lhs, rhs);
    var out := f(lhs, rhs);
    if |out| > 36 then Panic(CapacityPanic) else Ok(MatrixBuf(out, s.1))
  }

  /** As written, an `R x C` result with `R >= 2` reads back as one row of
      `R * C` entries, not as `R x C`. */
  lemma AsWrittenLosesShape(lhs: MatrixBuf, rhs: MatrixBuf, f: MatrixFn)
    requires OpShape(lhs, rhs).Ok? && OpShape(lhs, rhs).value.0 >= 2
    requires |f(lhs, rhs)| == OpShape(lhs, rhs).value.0 * OpShape(lhs, rhs).value.1
    ensures MatrixOpAsWritten(lhs, rhs, f).Ok?
    ensures var v := View(MatrixOpAsWritten(lhs, rhs, f).value).value;
      v.rows == 1 && (v.rows, v.cols) != OpShape(lhs, rhs).value
  {
    var s := OpShape(lhs, rhs).value;
    assert s.0 * s.1 <= 36;
  }

  /** The concrete case: adding two 2x2 matrices gives a 1x4 buffer. */
  lemma AsWrittenAddTwoByTwo()
    ensures var a := MatrixBuf([1.0, 2.0, 3.0, 4.0], 2);
      var add := (x: MatrixBuf, y: MatrixBuf) => seq(|x.d|, i requires 0 <= i < |x.d| => x.d[i] + (if i < |y.d| then y.d[i] else 0.0));
      View(a).value.rows == 2 && MatrixOpAsWritten(a, a, add) == Ok(MatrixBuf([2.0, 4.0, 6.0, 8.0], 4))
  {
    var a := MatrixBuf([1.0, 2.0, 3.0, 4.0], 2);
    var add := (x: MatrixBuf, y: MatrixBuf) => seq(|x.d|, i requires 0 <= i < |x.d| => x.d[i] + (if i < |y.d| then y.d[i] else 0.0));
    assert OpShape(a, a) == Ok((2, 2));
    assert add(a, a) == [2.0, 4.0, 6.0, 8.0];
  }

  /** With `n = C` the result has the operands' shape. */
  lemma MatrixOpKeepsShape(lhs: MatrixBuf, rhs: MatrixBuf, f: MatrixFn)
    requires OpShape(lhs, rhs).Ok?
    requires |f(lhs, rhs)| == OpShape(lhs, rhs).value.0 * OpShape(lhs, rhs).value.1
    ensures MatrixOp(lhs, rhs, f).Ok?
    ensures var v := View(MatrixOp(lhs, rhs, f).value).value;
      (v.rows, v.cols) == OpShape(lhs, rhs).value && v.data == f(lhs, rhs)
  {
    var s := OpShape(lhs, rhs).value;
    ShapeFits(s.0, s.1);
    assert MatrixOp(lhs, rhs, f) == Ok(MatrixBuf(f(lhs, rhs), s.1));
  }

  /** An `R x C` shape with both sides in `1..=6` fits the buffer, and its
      row count comes back from the length. */
  lemma ShapeFits(r: nat, c: nat)
    requires 1 <= r <= 6 && 1 <= c <= 6
    ensures r * c <= 36 && (r * c) / c == r
  {
    MulMono(r, 6, c);
    MulMono(c, 6, 6);
    assert (r + 1) * c == r * c + c;
    DivUnique(r * c, c, r);
  }
}
