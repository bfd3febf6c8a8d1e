/** What a WHERE answers, connective by connective, without its interpreter: integer
    arithmetic modulo 2^64, SQL truth, and the order of each pair of kinds (eval.go,
    value.go). */
module Meanings {
  import opened Wrappers
  import opened ByteStrings
  import opened Values
  import opened Expressions
  import opened TextForms

  /** A true BOOL or a non-zero INT, and nothing else, is true. */
  lemma TruthIs(v: Value)
    ensures Truthy(v) <==> v == Bool(true) || (v.Int? && v != Int(0))
  {}

  /** A column is its cell, a literal its value, a parameter its argument if there is one. */
  lemma LeavesMean(ord: nat, v: Value, index: nat, row: Row, args: seq<Value>)
    ensures ord < |row| ==> Eval(Col(ord), row, args) == Ok(row[ord])
    ensures Eval(Lit(v), row, args) == Ok(v)
    ensures Eval(Param(index), row, args) == if index < |args| then Ok(args[index]) else Err(ParamOutOfRange)
  {}

  // ---- connectives ----

  /** AND, OR and NOT on truth and on failure: the right side is looked at only when the
      left leaves it open. */
  lemma ConnectivesMean(l: Expr, r: Expr, row: Row, args: seq<Value>)
    requires BoundWithin(l, |row|) && BoundWithin(r, |row|)
    ensures Matches(Bin(OpAnd, l, r), row, args) <==> Matches(l, row, args) && Matches(r, row, args)
    ensures Eval(Bin(OpAnd, l, r), row, args).Err? <==> Eval(l, row, args).Err? || (Matches(l, row, args) && Eval(r, row, args).Err?)
    ensures Matches(Bin(OpOr, l, r), row, args) <==> Matches(l, row, args) || (Eval(l, row, args).Ok? && Matches(r, row, args))
    ensures Eval(Bin(OpOr, l, r), row, args).Err? <==>
              Eval(l, row, args).Err? || (!Matches(l, row, args) && Eval(r, row, args).Err?)
    ensures Matches(Not(l), row, args) <==> Eval(l, row, args).Ok? && !Matches(l, row, args)
    ensures Eval(Not(l), row, args).Err? <==> Eval(l, row, args).Err?
  {}

  lemma NullTestsMean(e: Expr, row: Row, args: seq<Value>)
    requires BoundWithin(e, |row|)
    ensures Matches(IsNull(e, false), row, args) <==> Eval(e, row, args) == Ok(Null)
    ensures Matches(IsNull(e, true), row, args) <==> exists v :: Eval(e, row, args) == Ok(v) && v != Null
    ensures Eval(IsNull(e, false), row, args).Err? <==> Eval(e, row, args).Err?
    ensures Eval(IsNull(e, true), row, args).Err? <==> Eval(e, row, args).Err?
  {}

  // ---- comparisons ----

  /** `a` comes before `b`: two INTs by number, every other pair by text; NULL before and
      after nothing. */
  predicate Before(a: Value, b: Value) {
    && a != Null && b != Null
    && if a.Int? && b.Int? then a.i < b.i else Less(AsString(a), AsString(b))
  }

  /** Neither before the other: for different kinds, the same text. */
  predicate Ties(a: Value, b: Value) {
    && a != Null && b != Null
    && if a.Int? && b.Int? then a.i == b.i else AsString(a) == AsString(b)
  }

  /** Equality is identity of kind and contents, NULL included; the ordered comparisons
      follow the texts and are false on NULL. */
  lemma ComparisonsMean(l: Expr, r: Expr, row: Row, args: seq<Value>, a: Value, b: Value)
    requires BoundWithin(l, |row|) && BoundWithin(r, |row|)
    requires Eval(l, row, args) == Ok(a) && Eval(r, row, args) == Ok(b)
    ensures Matches(Bin(OpEq, l, r), row, args) <==> a == b
    ensures Matches(Bin(OpNeq, l, r), row, args) <==> a != b
    ensures Matches(Bin(OpLt, l, r), row, args) <==> Before(a, b)
    ensures Matches(Bin(OpLte, l, r), row, args) <==> Before(a, b) || Ties(a, b)
    ensures Matches(Bin(OpGt, l, r), row, args) <==> Before(b, a)
    ensures Matches(Bin(OpGte, l, r), row, args) <==> Before(b, a) || Ties(a, b)
  {
    EqualityMeans(l, r, row, args, a, b);
    MatchesOrder(OpLt, l, r, row, args, a, b);
    MatchesOrder(OpLte, l, r, row, args, a, b);
    MatchesOrder(OpGt, l, r, row, args, a, b);
    MatchesOrder(OpGte, l, r, row, args, a, b);
  }

  lemma EqualityMeans(l: Expr, r: Expr, row: Row, args: seq<Value>, a: Value, b: Value)
    requires BoundWithin(l, |row|) && BoundWithin(r, |row|)
    requires Eval(l, row, args) == Ok(a) && Eval(r, row, args) == Ok(b)
    ensures Matches(Bin(OpEq, l, r), row, args) <==> a == b
    ensures Matches(Bin(OpNeq, l, r), row, args) <==> a != b
  {
    EqualIsIdentity(a, b);
  }

  /** What an ordered operator asks of two cells. */
  predicate Asks(op: Op, a: Value, b: Value) {
    match op
    case OpLt => Before(a, b)
    case OpLte => Before(a, b) || Ties(a, b)
    case OpGt => Before(b, a)
    case OpGte => Before(b, a) || Ties(a, b)
    case _ => false
  }

  lemma MatchesOrder(op: Op, l: Expr, r: Expr, row: Row, args: seq<Value>, a: Value, b: Value)
    requires BoundWithin(l, |row|) && BoundWithin(r, |row|) && CompareOp(op)
    requires Eval(l, row, args) == Ok(a) && Eval(r, row, args) == Ok(b)
    ensures Matches(Bin(op, l, r), row, args) <==> Asks(op, a, b)
  {
    OrderMeans(op, a, b);
    assert Eval(Bin(op, l, r), row, args) == EvalBin(op, a, b);
  }

  lemma OrderMeans(op: Op, a: Value, b: Value)
    requires CompareOp(op)
    ensures OrdValue(a, op, b) <==> Asks(op, a, b)
  {
    CompareIsTextOrder(a, b);
    LessTotal(AsString(a), AsString(b));
    StrictOrder(AsString(a), AsString(b));
  }

  /** A comparison or an arithmetic operator fails as its operands fail, left before right. */
  lemma OperandsFail(op: Op, l: Expr, r: Expr, row: Row, args: seq<Value>)
    requires BoundWithin(l, |row|) && BoundWithin(r, |row|) && !op.OpAnd? && !op.OpOr?
    ensures Eval(l, row, args).Err? ==> Eval(Bin(op, l, r), row, args) == Eval(l, row, args)
    ensures Eval(l, row, args).Ok? && Eval(r, row, args).Err? ==> Eval(Bin(op, l, r), row, args) == Eval(r, row, args)
    ensures Eval(l, row, args).Ok? && Eval(r, row, args).Ok? && op !in {OpPlus, OpMinus, OpStar} ==> Eval(Bin(op, l, r), row, args).Ok?
  {}

  // ---- arithmetic ----

  /** The integer a cell stands for in arithmetic: an INT, a BOOL as 1 or 0, a STRING that
      writes one in 64 bits. */
  predicate StandsForInt(v: Value, n: Int64) {
    v == Int(n) || (v == Bool(true) && n == 1) || (v == Bool(false) && n == 0) || (v.Str? && Numeral(v.s, n))
  }

  lemma AsIntReads(v: Value, n: Int64)
    ensures AsInt(v) == Some(n) <==> StandsForInt(v, n)
  {
    if v.Str? { ParseIntReads(v.s, n); }
  }

  predicate Congruent(x: int, y: int) {
    (x - y) % 0x1_0000_0000_0000_0000 == 0
  }

  lemma WrapIsCongruent(x: int, y: Int64)
    ensures Wrap64(x) == y <==> Congruent(x, y)
  {}

  /** Two integers give the one 64-bit integer congruent to the exact result. */
  lemma ArithmeticMeans(l: Expr, r: Expr, row: Row, args: seq<Value>, m: Int64, n: Int64, c: Int64)
    requires BoundWithin(l, |row|) && BoundWithin(r, |row|) && Eval(l, row, args).Ok? && Eval(r, row, args).Ok?
    requires StandsForInt(Eval(l, row, args).value, m) && StandsForInt(Eval(r, row, args).value, n)
    ensures Eval(Bin(OpPlus, l, r), row, args) == Ok(Int(c)) <==> Congruent(m + n, c)
    ensures Eval(Bin(OpMinus, l, r), row, args) == Ok(Int(c)) <==> Congruent(m - n, c)
    ensures Eval(Bin(OpStar, l, r), row, args) == Ok(Int(c)) <==> Congruent(m * n, c)
  {
    var a, b := Eval(l, row, args).value, Eval(r, row, args).value;
    Wraps(a, b, m, n);
    WrappedResult(OpPlus, l, r, row, args, m + n, c);
    WrappedResult(OpMinus, l, r, row, args, m - n, c);
    WrappedResult(OpStar, l, r, row, args, m * n, c);
  }

  lemma WrappedResult(op: Op, l: Expr, r: Expr, row: Row, args: seq<Value>, x: int, c: Int64)
    requires BoundWithin(l, |row|) && BoundWithin(r, |row|) && Eval(l, row, args).Ok? && Eval(r, row, args).Ok?
    requires op in {OpPlus, OpMinus, OpStar}
    requires EvalBin(op, Eval(l, row, args).value, Eval(r, row, args).value) == Ok(Int(Wrap64(x)))
    ensures Eval(Bin(op, l, r), row, args) == Ok(Int(c)) <==> Congruent(x, c)
  {
    WrapIsCongruent(x, c);
  }

  lemma Wraps(a: Value, b: Value, m: Int64, n: Int64)
    requires StandsForInt(a, m) && StandsForInt(b, n)
    ensures EvalBin(OpPlus, a, b) == Ok(Int(Wrap64(m + n)))
    ensures EvalBin(OpMinus, a, b) == Ok(Int(Wrap64(m - n)))
    ensures EvalBin(OpStar, a, b) == Ok(Int(Wrap64(m * n)))
  {
    AsIntReads(a, m);
    AsIntReads(b, n);
  }

  /** NULL propagates; beside it, an operand that stands for no integer is an error. */
  lemma ArithmeticFails(op: Op, l: Expr, r: Expr, row: Row, args: seq<Value>, a: Value, b: Value)
    requires BoundWithin(l, |row|) && BoundWithin(r, |row|) && op in {OpPlus, OpMinus, OpStar}
    requires Eval(l, row, args) == Ok(a) && Eval(r, row, args) == Ok(b)
    ensures a == Null || b == Null <==> Eval(Bin(op, l, r), row, args) == Ok(Null)
    ensures Eval(Bin(op, l, r), row, args) == Err(NotAnInt) <==> a != Null && b != Null && (NoInt(a) || NoInt(b))
    ensures Eval(Bin(op, l, r), row, args).Err? ==> Eval(Bin(op, l, r), row, args) == Err(NotAnInt)
  {
    ReadsSomeInt(a);
    ReadsSomeInt(b);
  }

  ghost predicate NoInt(v: Value) {
    forall n: Int64 :: !StandsForInt(v, n)
  }

  lemma ReadsSomeInt(v: Value)
    ensures AsInt(v).None? <==> NoInt(v)
  {
    if AsInt(v).Some? { AsIntReads(v, AsInt(v).value); }
    forall n: Int64 | StandsForInt(v, n) ensures AsInt(v) == Some(n) { AsIntReads(v, n); }
  }

  /** `n + b = c` and its like select exactly the rows that solve them modulo 2^64. */
  lemma ArithmeticSelects(l: Expr, r: Expr, e: Expr, row: Row, args: seq<Value>, a: Int64, b: Int64, c: Int64)
    requires BoundWithin(l, |row|) && BoundWithin(r, |row|) && BoundWithin(e, |row|)
    requires Eval(l, row, args) == Ok(Int(a)) && Eval(r, row, args) == Ok(Int(b)) && Eval(e, row, args) == Ok(Int(c))
    ensures Matches(Bin(OpEq, Bin(OpPlus, l, r), e), row, args) <==> Congruent(a + b, c)
    ensures Matches(Bin(OpEq, Bin(OpMinus, l, r), e), row, args) <==> Congruent(a - b, c)
    ensures Matches(Bin(OpEq, Bin(OpStar, l, r), e), row, args) <==> Congruent(a * b, c)
  {
    ArithmeticMeans(l, r, row, args, a, b, c);
    EqualTo(Bin(OpPlus, l, r), e, row, args, c);
    EqualTo(Bin(OpMinus, l, r), e, row, args, c);
    EqualTo(Bin(OpStar, l, r), e, row, args, c);
  }

  lemma EqualTo(x: Expr, e: Expr, row: Row, args: seq<Value>, c: Int64)
    requires BoundWithin(x, |row|) && BoundWithin(e, |row|) && Eval(e, row, args) == Ok(Int(c))
    ensures Matches(Bin(OpEq, x, e), row, args) <==> Eval(x, row, args) == Ok(Int(c))
  {}
}
