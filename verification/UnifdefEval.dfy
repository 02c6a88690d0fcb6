/** The evaluator of #if expressions: recursive descent over the tokens, with a loop at each level of precedence. */
module UnifdefEval {
  import opened OptionType
  import opened UnifdefExpr

  /** Err is LT_ERROR. `sym` tells that a symbol was looked at, so that the expression is not constant. */
  datatype Res = Err | Ok(val: Val, sym: bool, rest: seq<Token>)

  /** The do loop of skipargs: what follows the matching parenthesis. */
  function SkipFrom(level: int, ts: seq<Token>): (r: Option<seq<Token>>)
    ensures r.Some? ==> |r.value| < |ts|
    decreases ts
  {
    if ts == [] then None
    else
      var l := if ts[0].LParen? then level + 1 else if ts[0].RParen? then level - 1 else level;
      if l == 0 then Some(ts[1..]) else SkipFrom(l, ts[1..])
  }

  /** skipargs() */
  function SkipArgs(ts: seq<Token>): (r: seq<Token>)
    ensures |r| <= |ts|
  {
    if ts == [] || !ts[0].LParen? then ts
    else match SkipFrom(0, ts)
      case Some(r) => r
      case None => ts
  }

  function NotVal(v: Val): Val {
    if v.Known? then Known(Truth(v.v == 0)) else v
  }

  /** defined sym or defined (sym), after the word `defined` */
  function EvalDefined(ts: seq<Token>, syms: Symbols): (r: Res)
    ensures r.Ok? ==> |r.rest| <= |ts|
  {
    var paren := ts != [] && ts[0].LParen?;
    var at := if paren then ts[1..] else ts;
    var val := if at != [] && at[0].SymToken? && at[0].s in syms then Known(Truth(!syms[at[0].s].Undef?)) else Unknown;
    var after := if at != [] && IsName(at[0]) then at[1..] else at;
    if !paren then Ok(val, true, after)
    else if after != [] && after[0].RParen? then Ok(val, true, after[1..]) else Err
  }

  function EvalSym(s: nat, ts: seq<Token>, syms: Symbols): (r: Res)
    ensures r.Ok? ==> |r.rest| <= |ts|
  {
    if s !in syms then Ok(Unknown, true, SkipArgs(ts))
    else match syms[s]
      case Undef => Ok(Known(0), true, ts)
      case Number(v) => Ok(Known(ToInt(v)), true, SkipArgs(ts))
      case NotNumber => Err
  }

  function EvalUnary(ts: seq<Token>, syms: Symbols, strict: bool): (r: Res)
    ensures r.Ok? ==> |r.rest| < |ts|
    decreases |ts|, 0
  {
    if ts == [] then Err
    else match ts[0]
      case NotToken =>
        var r := EvalUnary(ts[1..], syms, strict);
        if r.Ok? then r.(val := NotVal(r.val)) else Err
      case LParen =>
        var r := EvalTable(0, ts[1..], syms, strict);
        if r.Ok? && r.rest != [] && r.rest[0].RParen? then r.(rest := r.rest[1..]) else Err
      case NumToken(n) => Ok(Known(ToInt(n)), false, ts[1..])
      case DefinedToken => EvalDefined(ts[1..], syms)
      case SymToken(s) => EvalSym(s, ts[1..], syms)
      case _ => Err
  }

  /** One level of the precedence table: the inner expression, then the loop. */
  function EvalTable(level: nat, ts: seq<Token>, syms: Symbols, strict: bool): (r: Res)
    requires level <= 3
    ensures r.Ok? ==> |r.rest| < |ts|
    decreases |ts|, 4 - level
  {
    EvalLoop(level,
             if level == 3 then EvalUnary(ts, syms, strict) else EvalTable(level + 1, ts, syms, strict),
             syms, strict)
  }

  /** The operators of this level, from left to right. */
  function EvalLoop(level: nat, a: Res, syms: Symbols, strict: bool): (r: Res)
    requires level <= 3
    ensures r.Ok? ==> a.Ok? && |r.rest| <= |a.rest|
    decreases if a.Ok? then |a.rest| else 0, 0
  {
    if a.Err? then Err
    else if AtLevel(level, a.rest) then
      var b := if level == 3 then EvalUnary(a.rest[1..], syms, strict) else EvalTable(level + 1, a.rest[1..], syms, strict);
      if b.Err? then Err
      else EvalLoop(level, Ok(OpVal(a.rest[0].op, a.val, b.val, strict), a.sym || b.sym, b.rest), syms, strict)
    else a
  }

  /** An operator of this level comes next. */
  predicate AtLevel(level: nat, ts: seq<Token>) {
    ts != [] && ts[0].OpToken? && Level(ts[0].op) == level
  }

  /** The expression mentions a symbol. */
  predicate HasSym(e: Expr) {
    match e
    case Num(_) => false
    case Sym(_) => true
    case Call(_, _) => true
    case IsDefined(_, _) => true
    case Not(x) => HasSym(x)
    case Paren(x) => HasSym(x)
    case Bin(_, l, r) => HasSym(l) || HasSym(r)
  }

  /** The result that belongs to an expression, with what follows it. */
  function Result(e: Expr, rest: seq<Token>, syms: Symbols, strict: bool): Res {
    if Abs(e, syms, strict).Some? then Ok(Abs(e, syms, strict).value, HasSym(e), rest) else Err
  }

  /** What may follow an operand. */
  predicate Follows(rest: seq<Token>) {
    rest == [] || rest[0].OpToken? || rest[0].RParen? || rest[0].OtherToken?
  }

  /** No operator that binds tighter than `level` comes next. */
  predicate NoTighter(level: nat, rest: seq<Token>) {
    Follows(rest) && (rest != [] && rest[0].OpToken? ==> Level(rest[0].op) <= level)
  }

  /* Skipping arguments. */

  lemma DepthOne(d: int, t: Token)
    ensures Depth(d, [t]) == if t.LParen? then d + 1 else if t.RParen? then d - 1 else d
  {
    assert [t][1..] == [];
    assert Depth(if t.LParen? then d + 1 else if t.RParen? then d - 1 else d, []) == if t.LParen? then d + 1 else if t.RParen? then d - 1 else d;
  }

  lemma {:induction false} SkipsArguments(d: int, args: seq<Token>, rest: seq<Token>)
    requires |args| > 0 && Depth(d, args) == 0 && (forall i :: 0 < i < |args| ==> Depth(d, args[..i]) != 0)
    ensures SkipFrom(d, args + rest) == Some(rest)
    decreases args
  {
    var d' := if args[0].LParen? then d + 1 else if args[0].RParen? then d - 1 else d;
    assert (args + rest)[0] == args[0] && (args + rest)[1..] == args[1..] + rest;
    if |args| == 1 {
      assert args[1..] == [] && [] + rest == rest;
    } else {
      DepthOne(d, args[0]);
      assert args[..1] == [args[0]];
      assert Depth(d, args[..1]) != 0;
      forall i | 0 < i < |args[1..]| ensures Depth(d', args[1..][..i]) != 0 {
        assert args[..i + 1][0] == args[0] && args[..i + 1][1..] == args[1..][..i];
      }
      SkipsArguments(d', args[1..], rest);
    }
  }

  lemma {:induction false} SkippedArguments(d: int, ts: seq<Token>) returns (args: seq<Token>)
    requires SkipFrom(d, ts).Some?
    ensures |args| > 0 && ts == args + SkipFrom(d, ts).value
    ensures Depth(d, args) == 0 && (forall i :: 0 < i < |args| ==> Depth(d, args[..i]) != 0)
    decreases ts
  {
    var d' := if ts[0].LParen? then d + 1 else if ts[0].RParen? then d - 1 else d;
    if d' == 0 {
      args := [ts[0]];
      assert args[1..] == [];
    } else {
      var more := SkippedArguments(d', ts[1..]);
      args := [ts[0]] + more;
      assert args[1..] == more;
      forall i | 0 < i < |args| ensures Depth(d, args[..i]) != 0 {
        assert args[..i][0] == ts[0] && args[..i][1..] == more[..i - 1];
        if i == 1 {
          assert more[..0] == [];
        }
      }
    }
  }

  /* Every grammatical expression is read as the grammar says. */

  /** The forms that the unary level reads without looking at others. */
  predicate Atom(e: Expr) {
    e.Num? || e.Sym? || e.Call? || e.IsDefined?
  }

  lemma ReadsDefined(e: Expr, rest: seq<Token>, syms: Symbols, strict: bool)
    requires e.IsDefined? && (e.arg.Some? ==> IsName(e.arg.value)) && Follows(rest)
    ensures EvalUnary(Flat(e) + rest, syms, strict) == Result(e, rest, syms, strict)
  {
    var ts := Flat(e) + rest;
    var a := if e.arg.Some? then [e.arg.value] else [];
    hide EvalDefined, IsName, EvalTable, EvalSym;
    if e.paren {
      assert ts[1..] == [LParen] + (a + ([RParen] + rest));
      DefinedParen(e.arg, rest, syms);
    } else {
      assert ts[1..] == a + rest;
      DefinedBare(e.arg, rest, syms);
    }
  }

  lemma DefinedBare(arg: Option<Token>, rest: seq<Token>, syms: Symbols)
    requires (arg.Some? ==> IsName(arg.value)) && Follows(rest)
    ensures EvalDefined((if arg.Some? then [arg.value] else []) + rest, syms) == Ok(DefinedVal(arg, syms), true, rest)
  {
    if arg.Some? {
      assert ([arg.value] + rest)[1..] == rest;
    } else {
      assert [] + rest == rest;
    }
  }

  lemma DefinedParen(arg: Option<Token>, rest: seq<Token>, syms: Symbols)
    requires (arg.Some? ==> IsName(arg.value))
    ensures EvalDefined([LParen] + ((if arg.Some? then [arg.value] else []) + ([RParen] + rest)), syms)
            == Ok(DefinedVal(arg, syms), true, rest)
  {
    var close := [RParen] + rest;
    var inner := (if arg.Some? then [arg.value] else []) + close;
    assert ([LParen] + inner)[1..] == inner && close[1..] == rest;
    if arg.Some? {
      assert inner[1..] == close;
    } else {
      assert inner == close;
    }
  }

  lemma ReadsAtom(e: Expr, rest: seq<Token>, syms: Symbols, strict: bool)
    requires Atom(e) && Grammatical(e, 4, syms) && Follows(rest)
    ensures EvalUnary(Flat(e) + rest, syms, strict) == Result(e, rest, syms, strict)
  {
    var ts := Flat(e) + rest;
    match e
    case Num(n) => assert ts[1..] == rest;
    case Sym(s) => assert ts[1..] == rest;
    case Call(s, args) =>
      assert ts[1..] == args + rest;
      SkipsArguments(0, args, rest);
    case IsDefined(_, _) => ReadsDefined(e, rest, syms, strict);
  }

  lemma ParenTokens(inner: seq<Token>, ts: seq<Token>, rest: seq<Token>)
    requires ts == [LParen] + inner + [RParen]
    ensures ts + rest != [] && (ts + rest)[0] == LParen && (ts + rest)[1..] == inner + ([RParen] + rest)
  {
  }

  lemma ReadsParen(x: Expr, rest: seq<Token>, syms: Symbols, strict: bool)
    requires EvalTable(0, Flat(x) + ([RParen] + rest), syms, strict)
             == EvalLoop(0, Result(x, [RParen] + rest, syms, strict), syms, strict)
    ensures EvalUnary(Flat(Paren(x)) + rest, syms, strict) == Result(Paren(x), rest, syms, strict)
  {
    assert Flat(Paren(x)) == [LParen] + Flat(x) + [RParen];
    ParenTokens(Flat(x), Flat(Paren(x)), rest);
    hide EvalTable, Flat;
    assert !AtLevel(0, [RParen] + rest) && ([RParen] + rest)[1..] == rest;
  }

  /** An operand is read as a whole. */
  lemma {:induction false} ReadsUnary(e: Expr, rest: seq<Token>, syms: Symbols, strict: bool)
    requires Grammatical(e, 4, syms) && Follows(rest)
    ensures EvalUnary(Flat(e) + rest, syms, strict) == Result(e, rest, syms, strict)
    decreases e, 0
  {
    hide EvalTable, Level;
    var ts := Flat(e) + rest;
    match e
    case Not(x) =>
      assert ts[1..] == Flat(x) + rest;
      ReadsUnary(x, rest, syms, strict);
    case Paren(x) =>
      ReadsTable(x, 0, [RParen] + rest, syms, strict);
      ReadsParen(x, rest, syms, strict);
    case _ => ReadsAtom(e, rest, syms, strict);
  }

  /** What a level reads before its own operators. */
  function Inner(level: nat, ts: seq<Token>, syms: Symbols, strict: bool): Res {
    if level >= 3 then EvalUnary(ts, syms, strict) else EvalTable(level + 1, ts, syms, strict)
  }

  /** The loop at an operator of its level. */
  lemma LoopAtOperator(level: nat, l: Expr, op: Op, r: Expr, rest: seq<Token>, syms: Symbols, strict: bool)
    requires level <= 3 && Level(op) == level
    requires Inner(level, Flat(r) + rest, syms, strict) == Result(r, rest, syms, strict)
    ensures EvalLoop(level, Result(l, [OpToken(op)] + (Flat(r) + rest), syms, strict), syms, strict)
            == EvalLoop(level, Result(Bin(op, l, r), rest, syms, strict), syms, strict)
  {
    var more := [OpToken(op)] + (Flat(r) + rest);
    assert more[1..] == Flat(r) + rest;
    hide EvalUnary, EvalTable, Flat, OpVal;
  }

  /** A level of the table reads an expression of that level and goes on with the operators that follow it. */
  lemma {:induction false} ReadsTable(e: Expr, level: nat, rest: seq<Token>, syms: Symbols, strict: bool)
    requires level <= 3 && Grammatical(e, level, syms) && NoTighter(level, rest)
    ensures EvalTable(level, Flat(e) + rest, syms, strict) == EvalLoop(level, Result(e, rest, syms, strict), syms, strict)
    decreases e, 2 * (4 - level)
  {
    hide EvalUnary, EvalLoop, Result;
    if e.Bin? && Level(e.op) == level {
      var more := [OpToken(e.op)] + (Flat(e.r) + rest);
      assert Flat(e) + rest == Flat(e.l) + more;
      ReadsTable(e.l, level, more, syms, strict);
      ReadsInner(e.r, level, rest, syms, strict);
      LoopAtOperator(level, e.l, e.op, e.r, rest, syms, strict);
    } else {
      ReadsInner(e, level, rest, syms, strict);
    }
  }

  lemma {:induction false} ReadsInner(e: Expr, level: nat, rest: seq<Token>, syms: Symbols, strict: bool)
    requires level <= 3 && Grammatical(e, level + 1, syms) && NoTighter(level, rest)
    ensures Inner(level, Flat(e) + rest, syms, strict) == Result(e, rest, syms, strict)
    decreases e, 2 * (4 - level) - 1
  {
    hide EvalUnary, EvalTable, Flat, Grammatical;
    if level == 3 {
      ReadsUnary(e, rest, syms, strict);
    } else {
      ReadsTable(e, level + 1, rest, syms, strict);
    }
  }

  /* Whatever is read is a grammatical expression. */

  lemma SymRead(s: nat, ts: seq<Token>, syms: Symbols, strict: bool) returns (e: Expr)
    requires EvalSym(s, ts, syms).Ok?
    ensures Grammatical(e, 4, syms) && [SymToken(s)] + ts == Flat(e) + EvalSym(s, ts, syms).rest
    ensures Result(e, EvalSym(s, ts, syms).rest, syms, strict) == EvalSym(s, ts, syms)
  {
    if (s in syms && syms[s].Undef?) || ts == [] || !ts[0].LParen? || SkipFrom(0, ts).None? {
      e := Sym(s);
    } else {
      var args := SkippedArguments(0, ts);
      e := Call(s, args);
    }
  }

  lemma DefinedRead(ts: seq<Token>, syms: Symbols, strict: bool) returns (e: Expr)
    requires EvalDefined(ts, syms).Ok?
    ensures Grammatical(e, 4, syms) && [DefinedToken] + ts == Flat(e) + EvalDefined(ts, syms).rest
    ensures Result(e, EvalDefined(ts, syms).rest, syms, strict) == EvalDefined(ts, syms)
  {
    var paren := ts != [] && ts[0].LParen?;
    var at := if paren then ts[1..] else ts;
    e := IsDefined(paren, if at != [] && IsName(at[0]) then Some(at[0]) else None);
  }

  lemma ParenEval(ts: seq<Token>, syms: Symbols, strict: bool)
    requires ts != [] && ts[0].LParen? && EvalUnary(ts, syms, strict).Ok?
    ensures var r := EvalTable(0, ts[1..], syms, strict);
            r.Ok? && r.rest != [] && r.rest[0] == RParen && EvalUnary(ts, syms, strict) == r.(rest := r.rest[1..])
  {
    hide EvalTable;
  }

  lemma ParenFlat(x: Expr, syms: Symbols)
    requires Grammatical(x, 0, syms)
    ensures Flat(Paren(x)) == [LParen] + Flat(x) + [RParen] && Grammatical(Paren(x), 4, syms)
  {
  }

  lemma ParenRead(x: Expr, ts: seq<Token>, syms: Symbols, strict: bool)
    requires ts != [] && ts[0].LParen? && EvalUnary(ts, syms, strict).Ok? && Grammatical(x, 0, syms)
    requires EvalTable(0, ts[1..], syms, strict).Ok? ==>
      ts[1..] == Flat(x) + EvalTable(0, ts[1..], syms, strict).rest &&
      Result(x, EvalTable(0, ts[1..], syms, strict).rest, syms, strict) == EvalTable(0, ts[1..], syms, strict)
    ensures ts == Flat(Paren(x)) + EvalUnary(ts, syms, strict).rest && Grammatical(Paren(x), 4, syms)
    ensures Result(Paren(x), EvalUnary(ts, syms, strict).rest, syms, strict) == EvalUnary(ts, syms, strict)
  {
    hide EvalTable, EvalUnary, Flat, Grammatical;
    var r := EvalTable(0, ts[1..], syms, strict);
    ParenEval(ts, syms, strict);
    ParenFlat(x, syms);
    assert ts == [ts[0]] + ts[1..] && r.rest == [r.rest[0]] + r.rest[1..];
  }

  lemma {:induction false} UnaryRead(ts: seq<Token>, syms: Symbols, strict: bool) returns (e: Expr)
    requires EvalUnary(ts, syms, strict).Ok?
    ensures Grammatical(e, 4, syms) && ts == Flat(e) + EvalUnary(ts, syms, strict).rest
    ensures Result(e, EvalUnary(ts, syms, strict).rest, syms, strict) == EvalUnary(ts, syms, strict)
    decreases |ts|, 0
  {
    hide EvalTable, EvalDefined, EvalSym, Level, IsName, Flat, Grammatical, Result, EvalUnary;
    UnaryForms(ts, syms, strict);
    assert ts == [ts[0]] + ts[1..];
    match ts[0]
    case NotToken =>
      var x := UnaryRead(ts[1..], syms, strict);
      e := Not(x);
      NotRead(x, ts, syms, strict);
    case LParen =>
      var x := TableRead(0, ts[1..], syms, strict);
      e := Paren(x);
      ParenRead(x, ts, syms, strict);
    case NumToken(n) =>
      e := Num(n);
      NumRead(n, ts, syms, strict);
    case DefinedToken => e := DefinedRead(ts[1..], syms, strict);
    case SymToken(s) => e := SymRead(s, ts[1..], syms, strict);
  }

  /** What the unary level does with each first token. */
  lemma UnaryForms(ts: seq<Token>, syms: Symbols, strict: bool)
    requires EvalUnary(ts, syms, strict).Ok?
    ensures ts != []
    ensures var t := ts[0]; t.NotToken? || t.LParen? || t.NumToken? || t.DefinedToken? || t.SymToken?
    ensures ts[0].NotToken? ==> EvalUnary(ts[1..], syms, strict).Ok?
    ensures ts[0].LParen? ==> EvalTable(0, ts[1..], syms, strict).Ok?
    ensures ts[0].DefinedToken? ==> EvalUnary(ts, syms, strict) == EvalDefined(ts[1..], syms)
    ensures ts[0].SymToken? ==> EvalUnary(ts, syms, strict) == EvalSym(ts[0].s, ts[1..], syms)
  {
    hide EvalTable, EvalDefined, EvalSym;
  }

  lemma NotRead(x: Expr, ts: seq<Token>, syms: Symbols, strict: bool)
    requires ts != [] && ts[0].NotToken? && EvalUnary(ts[1..], syms, strict).Ok? && Grammatical(x, 4, syms)
    requires ts[1..] == Flat(x) + EvalUnary(ts[1..], syms, strict).rest
    requires Result(x, EvalUnary(ts[1..], syms, strict).rest, syms, strict) == EvalUnary(ts[1..], syms, strict)
    ensures EvalUnary(ts, syms, strict).Ok? && Grammatical(Not(x), 4, syms)
    ensures ts == Flat(Not(x)) + EvalUnary(ts, syms, strict).rest
    ensures Result(Not(x), EvalUnary(ts, syms, strict).rest, syms, strict) == EvalUnary(ts, syms, strict)
  {
    hide EvalUnary, Flat, Grammatical, Result, NotVal;
    NotEval(ts, syms, strict);
    NotResult(x, EvalUnary(ts[1..], syms, strict).rest, syms, strict);
    assert ts == [ts[0]] + ts[1..];
    assert [NotToken] + (Flat(x) + EvalUnary(ts[1..], syms, strict).rest)
        == ([NotToken] + Flat(x)) + EvalUnary(ts[1..], syms, strict).rest;
  }

  lemma NotEval(ts: seq<Token>, syms: Symbols, strict: bool)
    requires ts != [] && ts[0].NotToken? && EvalUnary(ts[1..], syms, strict).Ok?
    ensures var r := EvalUnary(ts[1..], syms, strict); EvalUnary(ts, syms, strict) == Ok(NotVal(r.val), r.sym, r.rest)
  {
    hide EvalTable, EvalDefined, EvalSym, NotVal;
  }

  lemma NotResult(x: Expr, rest: seq<Token>, syms: Symbols, strict: bool)
    requires Grammatical(x, 4, syms) && Result(x, rest, syms, strict).Ok?
    ensures Grammatical(Not(x), 4, syms) && Flat(Not(x)) == [NotToken] + Flat(x)
    ensures var r := Result(x, rest, syms, strict); Result(Not(x), rest, syms, strict) == Ok(NotVal(r.val), r.sym, r.rest)
  {
  }

  lemma NumRead(n: nat, ts: seq<Token>, syms: Symbols, strict: bool)
    requires ts != [] && ts[0] == NumToken(n)
    ensures EvalUnary(ts, syms, strict).Ok? && Grammatical(Num(n), 4, syms)
    ensures ts == Flat(Num(n)) + EvalUnary(ts, syms, strict).rest
    ensures Result(Num(n), EvalUnary(ts, syms, strict).rest, syms, strict) == EvalUnary(ts, syms, strict)
  {
    hide EvalTable, EvalDefined, EvalSym;
    assert ts == [ts[0]] + ts[1..];
  }

  lemma {:induction false} TableRead(level: nat, ts: seq<Token>, syms: Symbols, strict: bool) returns (e: Expr)
    requires level <= 3 && EvalTable(level, ts, syms, strict).Ok?
    ensures Grammatical(e, level, syms) && ts == Flat(e) + EvalTable(level, ts, syms, strict).rest
    ensures Result(e, EvalTable(level, ts, syms, strict).rest, syms, strict) == EvalTable(level, ts, syms, strict)
    decreases |ts|, 2 * (4 - level)
  {
    var x := InnerRead(level, ts, syms, strict);
    Looser(x, level + 1, level, syms);
    e := LoopRead(level, x, Inner(level, ts, syms, strict).rest, syms, strict);
  }

  lemma {:induction false} InnerRead(level: nat, ts: seq<Token>, syms: Symbols, strict: bool) returns (e: Expr)
    requires level <= 3 && Inner(level, ts, syms, strict).Ok?
    ensures Grammatical(e, level + 1, syms) && ts == Flat(e) + Inner(level, ts, syms, strict).rest
    ensures Result(e, Inner(level, ts, syms, strict).rest, syms, strict) == Inner(level, ts, syms, strict)
    decreases |ts|, 2 * (4 - level) - 1
  {
    hide EvalUnary, EvalTable, Flat, Grammatical, Result;
    if level == 3 {
      e := UnaryRead(ts, syms, strict);
    } else {
      e := TableRead(level + 1, ts, syms, strict);
    }
  }

  lemma LoopNeedsInner(level: nat, l: Expr, ts: seq<Token>, syms: Symbols, strict: bool)
    requires level <= 3 && EvalLoop(level, Result(l, ts, syms, strict), syms, strict).Ok?
    ensures AtLevel(level, ts) ==> Inner(level, ts[1..], syms, strict).Ok?
    ensures !AtLevel(level, ts) ==>
      EvalLoop(level, Result(l, ts, syms, strict), syms, strict) == Result(l, ts, syms, strict) && Result(l, ts, syms, strict).rest == ts
  {
    hide EvalUnary, EvalTable, OpVal;
  }

  lemma BinIs(l: Expr, op: Op, r: Expr, level: nat, syms: Symbols)
    requires Level(op) == level && Grammatical(l, level, syms) && Grammatical(r, level + 1, syms)
    ensures Flat(Bin(op, l, r)) == Flat(l) + [OpToken(op)] + Flat(r) && Grammatical(Bin(op, l, r), level, syms)
  {
  }

  lemma FlatBin(l: Expr, op: Op, r: Expr, ts: seq<Token>, rest: seq<Token>, level: nat, syms: Symbols)
    requires ts != [] && ts[0] == OpToken(op) && ts[1..] == Flat(r) + rest
    requires Level(op) == level && Grammatical(l, level, syms) && Grammatical(r, level + 1, syms)
    ensures ts == [OpToken(op)] + (Flat(r) + rest) && Flat(l) + ts == Flat(Bin(op, l, r)) + rest
    ensures Grammatical(Bin(op, l, r), level, syms)
  {
    hide Flat, Grammatical;
    BinIs(l, op, r, level, syms);
    assert ts == [ts[0]] + ts[1..];
  }

  /** The loop extends what has been read on the right. */
  lemma {:induction false} LoopRead(level: nat, l: Expr, ts: seq<Token>, syms: Symbols, strict: bool) returns (e: Expr)
    requires level <= 3 && Grammatical(l, level, syms)
    requires EvalLoop(level, Result(l, ts, syms, strict), syms, strict).Ok?
    ensures Grammatical(e, level, syms)
    ensures Flat(l) + ts == Flat(e) + EvalLoop(level, Result(l, ts, syms, strict), syms, strict).rest
    ensures Result(e, EvalLoop(level, Result(l, ts, syms, strict), syms, strict).rest, syms, strict)
            == EvalLoop(level, Result(l, ts, syms, strict), syms, strict)
    decreases |ts|, 0
  {
    hide EvalLoop, Inner, Result, Flat, Grammatical;
    LoopNeedsInner(level, l, ts, syms, strict);
    if AtLevel(level, ts) {
      var op := ts[0].op;
      var r := InnerRead(level, ts[1..], syms, strict);
      var rest := Inner(level, ts[1..], syms, strict).rest;
      FlatBin(l, op, r, ts, rest, level, syms);
      LoopAtOperator(level, l, op, r, rest, syms, strict);
      e := LoopRead(level, Bin(op, l, r), rest, syms, strict);
    } else {
      e := l;
    }
  }
}
