/** Bound expressions, their interpreter, and the compiled row filters that must
    agree with it (ast.go, eval.go, filter.go). */
module Expressions {
  import opened Wrappers
  import opened ByteStrings
  import opened Values

  datatype Op = OpEq | OpNeq | OpLt | OpLte | OpGt | OpGte | OpAnd | OpOr | OpPlus | OpMinus | OpStar

  /** An expression after planning: every column is an ordinal. */
  datatype Expr =
    | Col(ord: nat)
    | Lit(v: Value)
    | Param(index: nat)
    | Bin(op: Op, lhs: Expr, rhs: Expr)
    | Not(e: Expr)
    | IsNull(e: Expr, negated: bool)

  datatype EvalError = ParamOutOfRange | NotAnInt

  type EvalResult = Result<Value, EvalError>

  /** Two's-complement wrap-around of a 64-bit result. */
  function Wrap64(x: int): Int64 {
    var r := x % 0x1_0000_0000_0000_0000;
    if r < 0x8000_0000_0000_0000 then r else r - 0x1_0000_0000_0000_0000
  }

  /** WHERE truth: a true BOOL or a non-zero INT. */
  predicate Truthy(v: Value) {
    (v.Bool? && v.AsWord() == 1) || (v.Int? && v.AsWord() != 0)
  }

  predicate CompareOp(op: Op) {
    op.OpLt? || op.OpLte? || op.OpGt? || op.OpGte?
  }

  /** Does a three-way result satisfy an ordered operator? */
  predicate Accepts(op: Op, c: int)
    requires CompareOp(op)
  {
    match op
    case OpLt => c < 0
    case OpLte => c <= 0
    case OpGt => c > 0
    case OpGte => c >= 0
  }

  /** Every column the expression reads exists in a row of this width. */
  predicate BoundWithin(e: Expr, width: nat) {
    match e
    case Col(ord) => ord < width
    case Lit(_) => true
    case Param(_) => true
    case Bin(_, l, r) => BoundWithin(l, width) && BoundWithin(r, width)
    case Not(x) => BoundWithin(x, width)
    case IsNull(x, _) => BoundWithin(x, width)
  }

  /** `evalExpr`. */
  function Eval(e: Expr, row: Row, args: seq<Value>): EvalResult
    requires BoundWithin(e, |row|)
  {
    match e
    case Col(ord) => Ok(row[ord])
    case Lit(v) => Ok(v)
    case Param(i) => if i < |args| then Ok(args[i]) else Err(ParamOutOfRange)
    case Bin(op, l, r) =>
      (match Eval(l, row, args)
       case Err(x) => Err(x)
       case Ok(lv) =>
         if op.OpAnd? && !Truthy(lv) then Ok(Bool(false))
         else if op.OpOr? && Truthy(lv) then Ok(Bool(true))
         else
           match Eval(r, row, args)
           case Err(x) => Err(x)
           case Ok(rv) => EvalBin(op, lv, rv))
    case Not(x) =>
      (match Eval(x, row, args)
       case Err(y) => Err(y)
       case Ok(v) => Ok(Bool(!Truthy(v))))
    case IsNull(x, negated) =>
      (match Eval(x, row, args)
       case Err(y) => Err(y)
       case Ok(v) => Ok(Bool(v.Null? != negated)))
  }

  function EvalBin(op: Op, lv: Value, rv: Value): EvalResult {
    match op
    case OpAnd => Ok(Bool(Truthy(rv)))
    case OpOr => Ok(Bool(Truthy(rv)))
    case OpEq => Ok(Bool(lv.Equal(rv)))
    case OpNeq => Ok(Bool(!lv.Equal(rv)))
    case OpPlus => Arith(lv, rv, (a, b) => a + b)
    case OpMinus => Arith(lv, rv, (a, b) => a - b)
    case OpStar => Arith(lv, rv, (a, b) => a * b)
    case _ =>
      match Compare(lv, rv)
      case None => Ok(Bool(false))
      case Some(c) => Ok(Bool(Accepts(op, c)))
  }

  /** Integer arithmetic: NULL propagates, overflow wraps. */
  function Arith(lv: Value, rv: Value, f: (int, int) -> int): EvalResult {
    if lv.Null? || rv.Null? then Ok(Null)
    else
      match (AsInt(lv), AsInt(rv))
      case (Some(a), Some(b)) => Ok(Int(Wrap64(f(a, b))))
      case _ => Err(NotAnInt)
  }

  /** What a scan asks of a row: evaluation succeeded and the result is true. */
  predicate Matches(e: Expr, row: Row, args: seq<Value>)
    requires BoundWithin(e, |row|)
  {
    var r := Eval(e, row, args);
    r.Ok? && Truthy(r.value)
  }

  // ---- compiled filters ----

  /** A compiled predicate: each case is one closure the compiler builds, with the
      values it captured. */
  datatype Filter =
    | FAnd(l: Filter, r: Filter)
    | FOr(l: Filter, r: Filter)
    | FNot(f: Filter)
    | FIsNull(ord: nat, negated: bool)
    | FEqString(ord: nat, s: Bytes)
    | FEqWord(ord: nat, kind: Kind, w: Int64)
    | FEqUuid(ord: nat, hi: Word, lo: Word)
    | FEqValue(ord: nat, rhs: Value)
    | FOrdWord(ord: nat, op: Op, kind: Kind, w: Int64, rhs: Value)
    | FOrdString(ord: nat, op: Op, s: Bytes, rhs: Value)
    | FOrdValue(ord: nat, op: Op, rhs: Value)

  predicate FilterWithin(f: Filter, width: nat) {
    match f
    case FAnd(l, r) => FilterWithin(l, width) && FilterWithin(r, width)
    case FOr(l, r) => FilterWithin(l, width) && FilterWithin(r, width)
    case FNot(x) => FilterWithin(x, width)
    case FOrdWord(ord, op, _, _, _) => ord < width && CompareOp(op)
    case FOrdString(ord, op, _, _) => ord < width && CompareOp(op)
    case FOrdValue(ord, op, _) => ord < width && CompareOp(op)
    case _ => f.ord < width
  }

  /** `Value.Compare` per row: an incomparable pair never matches. */
  predicate OrdValue(c: Value, op: Op, rhs: Value)
    requires CompareOp(op)
  {
    var cc := Compare(c, rhs);
    cc.Some? && Accepts(op, cc.value)
  }

  predicate LessWith(op: Op, less: bool, equal: bool)
    requires CompareOp(op)
  {
    match op
    case OpLt => less
    case OpLte => less || equal
    case OpGt => !less && !equal
    case OpGte => !less
  }

  /** Runs a compiled filter on a row. */
  predicate Test(f: Filter, row: Row)
    requires FilterWithin(f, |row|)
  {
    match f
    case FAnd(l, r) => Test(l, row) && Test(r, row)
    case FOr(l, r) => Test(l, row) || Test(r, row)
    case FNot(x) => !Test(x, row)
    case FIsNull(ord, negated) => row[ord].Null? != negated
    case FEqString(ord, s) => row[ord].Str? && row[ord].s == s
    case FEqWord(ord, kind, w) => (row[ord].Int? || row[ord].Bool?) && row[ord].Kind() == kind && row[ord].AsWord() == w
    case FEqUuid(ord, hi, lo) => row[ord].Id? && row[ord].u.hi == hi && row[ord].u.lo == lo
    case FEqValue(ord, rhs) => row[ord].Equal(rhs)
    case FOrdWord(ord, op, kind, w, rhs) =>
      var c := row[ord];
      if (c.Int? || c.Bool?) && c.Kind() == kind then LessWith(op, c.AsWord() < w, c.AsWord() == w)
      else OrdValue(c, op, rhs)
    case FOrdString(ord, op, s, rhs) =>
      var c := row[ord];
      if c.Str? then LessWith(op, Less(c.s, s), c.s == s) else OrdValue(c, op, rhs)
    case FOrdValue(ord, op, rhs) => OrdValue(row[ord], op, rhs)
  }

  function ResolveOperand(e: Expr, args: seq<Value>): Option<Value> {
    match e
    case Lit(v) => Some(v)
    case Param(i) => if i < |args| then Some(args[i]) else None
    case _ => None
  }

  function CompileEq(ord: nat, rhs: Value): Filter {
    match rhs
    case Str(s) => FEqString(ord, s)
    case Int(_) => FEqWord(ord, rhs.Kind(), rhs.AsWord())
    case Bool(_) => FEqWord(ord, rhs.Kind(), rhs.AsWord())
    case Id(u) => FEqUuid(ord, u.hi, u.lo)
    case _ => FEqValue(ord, rhs)
  }

  function CompileOrd(ord: nat, op: Op, rhs: Value): Filter {
    match rhs
    case Int(_) => FOrdWord(ord, op, rhs.Kind(), rhs.AsWord(), rhs)
    case Bool(_) => FOrdWord(ord, op, rhs.Kind(), rhs.AsWord(), rhs)
    case Str(s) => FOrdString(ord, op, s, rhs)
    case _ => FOrdValue(ord, op, rhs)
  }

  /** `compileFilter`: None falls back to the interpreter. */
  function Compile(e: Expr, args: seq<Value>): Option<Filter> {
    match e
    case Bin(OpAnd, l, r) =>
      (match (Compile(l, args), Compile(r, args))
       case (Some(a), Some(b)) => Some(FAnd(a, b))
       case _ => None)
    case Bin(OpOr, l, r) =>
      (match (Compile(l, args), Compile(r, args))
       case (Some(a), Some(b)) => Some(FOr(a, b))
       case _ => None)
    case Bin(op, Col(ord), r) =>
      (match ResolveOperand(r, args)
       case None => None
       case Some(rhs) =>
         if op.OpEq? then Some(CompileEq(ord, rhs))
         else if op.OpNeq? then Some(FNot(CompileEq(ord, rhs)))
         else if CompareOp(op) then Some(CompileOrd(ord, op, rhs))
         else None)
    case Not(x) =>
      (match Compile(x, args)
       case Some(f) => Some(FNot(f))
       case None => None)
    case IsNull(Col(ord), negated) => Some(FIsNull(ord, negated))
    case _ => None
  }

  lemma CompileEqAgrees(ord: nat, rhs: Value, row: Row)
    requires ord < |row|
    ensures FilterWithin(CompileEq(ord, rhs), |row|) && (Test(CompileEq(ord, rhs), row) <==> row[ord].Equal(rhs))
  {}

  /** The specialised ordered test agrees with Compare on every kind of cell,
      including the mixed-kind text comparison and NULL. */
  lemma CompileOrdAgrees(ord: nat, op: Op, rhs: Value, row: Row)
    requires ord < |row| && CompareOp(op)
    ensures FilterWithin(CompileOrd(ord, op, rhs), |row|)
    ensures Test(CompileOrd(ord, op, rhs), row) <==> OrdValue(row[ord], op, rhs)
  {
    var c := row[ord];
    if c.Str? && rhs.Str? {
      LessTotal(c.s, rhs.s);
      StrictOrder(c.s, rhs.s);
    }
  }

  /** Whenever compilation succeeds, evaluation succeeds on every row and the
      compiled test is its truth. */
  lemma {:induction false} CompiledIsInterpreted(e: Expr, args: seq<Value>, row: Row)
    requires BoundWithin(e, |row|) && Compile(e, args).Some?
    ensures FilterWithin(Compile(e, args).value, |row|)
    ensures Eval(e, row, args).Ok?
    ensures Test(Compile(e, args).value, row) <==> Truthy(Eval(e, row, args).value)
  {
    match e
    case Bin(op, l, r) =>
      if op.OpAnd? || op.OpOr? {
        CompiledIsInterpreted(l, args, row);
        CompiledIsInterpreted(r, args, row);
      } else {
        var rhs := ResolveOperand(r, args).value;
        CompileEqAgrees(l.ord, rhs, row);
        if CompareOp(op) {
          CompileOrdAgrees(l.ord, op, rhs, row);
        }
      }
    case Not(x) => CompiledIsInterpreted(x, args, row);
    case IsNull(x, _) =>
    case _ =>
  }

  /** `rowMatcher`: the compiled filter when there is one, else the interpreter. */
  predicate RowMatches(e: Expr, row: Row, args: seq<Value>)
    requires BoundWithin(e, |row|)
  {
    match Compile(e, args)
    case Some(f) => FilterWithin(f, |row|) && Test(f, row)
    case None => Matches(e, row, args)
  }

  lemma RowMatcherAgrees(e: Expr, row: Row, args: seq<Value>)
    requires BoundWithin(e, |row|)
    ensures RowMatches(e, row, args) <==> Matches(e, row, args)
  {
    if Compile(e, args).Some? {
      CompiledIsInterpreted(e, args, row);
    }
  }

  // ---- conjuncts ----

  /** `collectConjuncts`: the top-level AND parts, left to right. */
  function Conjuncts(e: Expr): (c: seq<Expr>)
    ensures |c| > 0
  {
    match e
    case Bin(OpAnd, l, r) => Conjuncts(l) + Conjuncts(r)
    case _ => [e]
  }

  predicate AllBound(es: seq<Expr>, width: nat) {
    forall i :: 0 <= i < |es| ==> BoundWithin(es[i], width)
  }

  /** `conjunctsMatcher`: every conjunct's own matcher passes. */
  predicate AllMatch(es: seq<Expr>, row: Row, args: seq<Value>)
    requires AllBound(es, |row|)
  {
    forall i :: 0 <= i < |es| ==> RowMatches(es[i], row, args)
  }

  lemma {:induction false} ConjunctsBound(e: Expr, width: nat)
    requires BoundWithin(e, width)
    ensures AllBound(Conjuncts(e), width)
  {
    if e.Bin? && e.op.OpAnd? {
      ConjunctsBound(e.lhs, width);
      ConjunctsBound(e.rhs, width);
    }
  }

  /** Matching every conjunct on its own is matching the whole WHERE, errors included. */
  lemma {:induction false} ConjunctsMatchWhere(e: Expr, row: Row, args: seq<Value>)
    requires BoundWithin(e, |row|)
    ensures AllBound(Conjuncts(e), |row|)
    ensures AllMatch(Conjuncts(e), row, args) <==> Matches(e, row, args)
  {
    ConjunctsBound(e, |row|);
    if e.Bin? && e.op.OpAnd? {
      ConjunctsMatchWhere(e.lhs, row, args);
      ConjunctsMatchWhere(e.rhs, row, args);
      var l, r := Conjuncts(e.lhs), Conjuncts(e.rhs);
      assert Conjuncts(e) == l + r;
      assert AllMatch(l + r, row, args) <==> AllMatch(l, row, args) && AllMatch(r, row, args) by {
        if AllMatch(l + r, row, args) {
          forall i | 0 <= i < |l| ensures RowMatches(l[i], row, args) { assert (l + r)[i] == l[i]; }
          forall i | 0 <= i < |r| ensures RowMatches(r[i], row, args) { assert (l + r)[|l| + i] == r[i]; }
        }
      }
    } else {
      assert Conjuncts(e) == [e] && [e][0] == e;
      RowMatcherAgrees(e, row, args);
      assert AllMatch([e], row, args) ==> RowMatches([e][0], row, args);
    }
  }

  /** The value side and ordinal of `col = literal-or-parameter`, in either order. */
  function ColAndLit(e: Expr): Option<(nat, Expr)> {
    match e
    case Bin(OpEq, Col(ord), Lit(_)) => Some((ord, e.rhs))
    case Bin(OpEq, Col(ord), Param(_)) => Some((ord, e.rhs))
    case Bin(OpEq, Lit(_), Col(ord)) => Some((ord, e.lhs))
    case Bin(OpEq, Param(_), Col(ord)) => Some((ord, e.lhs))
    case _ => None
  }

  /** A pinned conjunct holds exactly when the row holds the pinned value. */
  lemma PinMeansEqual(e: Expr, row: Row, args: seq<Value>)
    requires BoundWithin(e, |row|) && ColAndLit(e).Some?
    ensures var (ord, src) := ColAndLit(e).value; ord < |row| && BoundWithin(src, |row|)
    ensures var (ord, src) := ColAndLit(e).value; var v := ResolveOperand(src, args);
            Matches(e, row, args) <==> v.Some? && row[ord] == v.value
  {
    var (ord, src) := ColAndLit(e).value;
    match ResolveOperand(src, args)
    case Some(v) =>
      EqualIsIdentity(row[ord], v);
      EqualIsIdentity(v, row[ord]);
      if e.lhs.Col? {
        assert Eval(e, row, args) == EvalBin(OpEq, row[ord], v);
      } else {
        assert Eval(e, row, args) == EvalBin(OpEq, v, row[ord]);
      }
    case None => assert Eval(src, row, args).Err?;
  }
}
