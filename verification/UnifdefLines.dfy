/** From the text of the directives to the text unifdef prints. */
module UnifdefLines {
  import opened OptionType
  import opened Unifdef
  import opened UnifdefExpr
  import opened UnifdefEval
  import opened UnifdefIfeval

  /** A line before it is classified. `name` is None where #ifdef has no symbol; `junk` is text after the directive. */
  datatype Raw =
    | RawIfdef(negated: bool, name: Option<nat>, junk: bool, dodgy: bool)
    | RawIf(cond: seq<Token>, dodgy: bool)
    | RawElif(cond: seq<Token>, dodgy: bool)
    | RawElse(dodgy: bool)
    | RawEndif(dodgy: bool)
    | RawPlain(text: nat)

  /** The options and the symbol table; `ignored` are the symbols of -iD and -iU. */
  datatype Options = Options(syms: Symbols, ignored: set<nat>, strict: bool, killconsts: bool, iocccok: bool)

  /** parseline() */
  function Classify(raw: Raw, o: Options): LineType {
    match raw
    case RawIfdef(negated, name, junk, dodgy) =>
      Directive(
        if name.None? || name.value !in o.syms || junk then If
        else if o.syms[name.value].Undef? == negated then (if name.value in o.ignored then TrueI else True)
        else (if name.value in o.ignored then FalseI else False),
        dodgy)
    case RawIf(cond, dodgy) =>
      var v := Ifeval(cond, o.syms, o.strict, o.killconsts);
      Directive(if v.IsTrue? then True else if v.IsFalse? then False else If, dodgy)
    case RawElif(cond, dodgy) =>
      var v := Ifeval(cond, o.syms, o.strict, o.killconsts);
      Directive(if v.IsTrue? then ElTrue else if v.IsFalse? then ElFalse else Elif, dodgy)
    case RawElse(dodgy) => Directive(Else, dodgy)
    case RawEndif(dodgy) => Directive(Endif, dodgy)
    case RawPlain(_) => Plain
  }

  /** The lines as the state machine sees them; a condition is named by the number of its line. */
  function Lines(raws: seq<Raw>, o: Options): (lines: seq<Line>)
    ensures |lines| == |raws|
  {
    seq(|raws|, i requires 0 <= i < |raws| =>
      Line(Classify(raws[i], o), i, if raws[i].RawPlain? then raws[i].text else 0))
  }

  /** The tokens are an expression of C's grammar as far as unifdef knows it. */
  ghost predicate Parses(ts: seq<Token>, syms: Symbols, e: Expr) {
    Grammatical(e, 0, syms) && Flat(e) == ts
  }

  /**
   Whether the condition of a line holds in C. The value of anything outside the grammar, such as arithmetic,
   is given by `other`.
   */
  ghost predicate Holds(raw: Raw, syms: Symbols, env: Env, other: Raw -> bool) {
    match raw
    case RawIfdef(negated, name, _, _) => if name.None? then other(raw) else env.defined(name.value) != negated
    case RawIf(cond, _) => TokensHold(cond, syms, env, other(raw))
    case RawElif(cond, _) => TokensHold(cond, syms, env, other(raw))
    case _ => false
  }

  ghost predicate TokensHold(ts: seq<Token>, syms: Symbols, env: Env, otherwise: bool) {
    if exists e :: Parses(ts, syms, e) then
      var e :| Parses(ts, syms, e);
      CValue(e, env) != 0
    else otherwise
  }

  /** In every condition the literals and the known values keep their order when they are cut to an int. */
  ghost predicate AllInOrder(raws: seq<Raw>, syms: Symbols) {
    forall i, e :: 0 <= i < |raws| && (raws[i].RawIf? || raws[i].RawElif?) && Parses(raws[i].cond, syms, e) ==> InOrder(e, syms)
  }

  lemma TokensAgree(ts: seq<Token>, o: Options, env: Env, otherwise: bool)
    requires Describes(o.syms, env) && (forall e :: Parses(ts, o.syms, e) ==> InOrder(e, o.syms))
    ensures Ifeval(ts, o.syms, o.strict, o.killconsts) == IsTrue ==> TokensHold(ts, o.syms, env, otherwise)
    ensures Ifeval(ts, o.syms, o.strict, o.killconsts) == IsFalse ==> !TokensHold(ts, o.syms, env, otherwise)
  {
    hide Ifeval, Describes, InOrder, CValue, Flat, Grammatical;
    if Ifeval(ts, o.syms, o.strict, o.killconsts) in {IsTrue, IsFalse} {
      var e := IfevalGrammatical(ts, o.syms, o.strict, o.killconsts);
      assert Parses(ts, o.syms, e);
      forall e | Parses(ts, o.syms, e) ensures SoundFor(e, o.syms, o.strict, o.killconsts, env) {
        IfevalSound(e, o.syms, o.strict, o.killconsts, env);
      }
    }
  }

  /** What the classification says about a condition is true of it. */
  lemma RawAgrees(raw: Raw, i: nat, o: Options, env: Env, other: Raw -> bool, v: Valuation)
    requires Describes(o.syms, env) && v(i) == Holds(raw, o.syms, env, other)
    requires forall e :: (raw.RawIf? || raw.RawElif?) && Parses(raw.cond, o.syms, e) ==> InOrder(e, o.syms)
    ensures Agrees(Line(Classify(raw, o), i, if raw.RawPlain? then raw.text else 0), v)
  {
    hide Ifeval, TokensHold, InOrder, Parses;
    if raw.RawIf? || raw.RawElif? {
      TokensAgree(raw.cond, o, env, other(raw));
    }
  }

  /**
   Text in, text out: under every setting of the symbols that -D and -U allow, and whatever the conditions that
   unifdef cannot evaluate come to, the preprocessor keeps the same ordinary lines of output and input. The setting of
   the other symbols may change from line to line, as they are defined and undefined in the file.
   */
  lemma FileMeansSame(raws: seq<Raw>, o: Options, envs: nat -> Env, other: (nat, Raw) -> bool, v: Valuation)
    requires (forall i: nat :: i < |raws| ==> Describes(o.syms, envs(i))) && AllInOrder(raws, o.syms)
    requires forall i: nat :: i < |raws| ==> v(i) == Holds(raws[i], o.syms, envs(i), r => other(i, r))
    requires Run([], Lines(raws, o), o.iocccok).Some?
    ensures Preprocess([], Run([], Lines(raws, o), o.iocccok).value, v).Some?
    ensures Preprocess([], Run([], Lines(raws, o), o.iocccok).value, v) == Preprocess([], Source(Lines(raws, o)), v)
  {
    hide Holds, Classify, Agrees, Run, Preprocess, Describes, InOrder, Parses;
    var lines := Lines(raws, o);
    forall i | 0 <= i < |lines| ensures Agrees(lines[i], v) {
      RawAgrees(raws[i], i, o, envs(i), r => other(i, r), v);
    }
    OutputMeansInput(lines, o.iocccok, v);
  }

  /* The evaluator with its cursor. */

  /** The verdict, the value and the cursor are those of the result. */
  predicate Encodes(lt: Verdict, val: int, sym: bool, cp: seq<Token>, r: Res) {
    match lt
    case IsError => r.Err?
    case IsIf => r == Ok(Unknown, sym, cp)
    case IsTrue => r == Ok(Known(val), sym, cp) && val != 0
    case IsFalse => r == Ok(Known(0), sym, cp) && val == 0
  }

  /** op_strict */
  method OpStrict(p: int, v: bool, at: Verdict, bt: Verdict) returns (lt: Verdict, val: int)
    requires !at.IsError? && !bt.IsError?
    ensures at.IsIf? || bt.IsIf? ==> lt.IsIf? && val == p
    ensures !at.IsIf? && !bt.IsIf? ==> val == Truth(v) && lt == if v then IsTrue else IsFalse
  {
    if at.IsIf? || bt.IsIf? {
      return IsIf, p;
    }
    if v {
      return IsTrue, 1;
    }
    return IsFalse, 0;
  }

  function ToVal(lt: Verdict, v: int): Val {
    if lt.IsIf? then Unknown else Known(v)
  }

  predicate Consistent(lt: Verdict, v: int) {
    !lt.IsError? && (lt.IsTrue? ==> v != 0) && (lt.IsFalse? ==> v == 0)
  }

  /** op_or, op_and and the strict operators. */
  method OpFn(op: Op, at: Verdict, a: int, bt: Verdict, b: int, strict: bool) returns (lt: Verdict, val: int)
    requires Consistent(at, a) && Consistent(bt, b)
    ensures Consistent(lt, val) && ToVal(lt, val) == OpVal(op, ToVal(at, a), ToVal(bt, b), strict)
  {
    if op.Or? && !strict && (at.IsTrue? || bt.IsTrue?) {
      return IsTrue, 1;
    }
    if op.And? && !strict && (at.IsFalse? || bt.IsFalse?) {
      return IsFalse, 0;
    }
    var v := OpValue(op, a, b) != 0;
    lt, val := OpStrict(a, v, at, bt);
  }

  /** eval_unary() from the cursor `ts`. */
  method UnaryAt(ts: seq<Token>, syms: Symbols, strict: bool)
    returns (lt: Verdict, val: int, sym: bool, cp: seq<Token>)
    ensures Encodes(lt, val, sym, cp, EvalUnary(ts, syms, strict))
    decreases |ts|, 0
  {
    hide EvalTable;
    lt, val, sym, cp := IsError, 0, false, ts;
    if ts == [] {
      return;
    }
    match ts[0]
    case NotToken =>
      lt, val, sym, cp := UnaryAt(ts[1..], syms, strict);
      if lt.IsTrue? || lt.IsFalse? {
        val := if val == 0 then 1 else 0;
        lt := if val != 0 then IsTrue else IsFalse;
      }
    case LParen =>
      lt, val, sym, cp := TableAt(0, ts[1..], syms, strict);
      if lt.IsError? || cp == [] || !cp[0].RParen? {
        lt := IsError;
        return;
      }
      cp := cp[1..];
    case NumToken(n) =>
      val, cp := ToInt(n), ts[1..];
      lt := if val != 0 then IsTrue else IsFalse;
    case DefinedToken => lt, val, sym, cp := DefinedAt(ts[1..], syms);
    case SymToken(s) => lt, val, sym, cp := SymAt(s, ts[1..], syms);
    case _ =>
  }

  /** The part of eval_unary() after the word `defined`. */
  method DefinedAt(ts: seq<Token>, syms: Symbols) returns (lt: Verdict, val: int, sym: bool, cp: seq<Token>)
    ensures Encodes(lt, val, sym, cp, EvalDefined(ts, syms))
  {
    lt, val, sym, cp := IsIf, 0, true, ts;
    var paren := false;
    if cp != [] && cp[0].LParen? {
      cp, paren := cp[1..], true;
    }
    if cp != [] && cp[0].SymToken? && cp[0].s in syms {
      val := if syms[cp[0].s].Undef? then 0 else 1;
      lt := if val != 0 then IsTrue else IsFalse;
    }
    if cp != [] && IsName(cp[0]) {
      cp := cp[1..];
    }
    if paren {
      if cp == [] || !cp[0].RParen? {
        lt := IsError;
        return;
      }
      cp := cp[1..];
    }
  }

  /** skipargs() */
  method SkipArgsAt(ts: seq<Token>) returns (cp: seq<Token>)
    ensures cp == SkipArgs(ts)
  {
    cp := ts;
    if cp == [] || !cp[0].LParen? {
      return;
    }
    var level := 1;
    cp := cp[1..];
    while level != 0 && cp != []
      invariant SkipFrom(0, ts) == if level == 0 then Some(cp) else SkipFrom(level, cp)
      decreases |cp|
    {
      if cp[0].LParen? {
        level := level + 1;
      }
      if cp[0].RParen? {
        level := level - 1;
      }
      cp := cp[1..];
    }
    if level != 0 {
      cp := ts;
    }
  }

  /** The part of eval_unary() after a symbol. */
  method SymAt(s: nat, ts: seq<Token>, syms: Symbols) returns (lt: Verdict, val: int, sym: bool, cp: seq<Token>)
    ensures Encodes(lt, val, sym, cp, EvalSym(s, ts, syms))
  {
    lt, val, sym, cp := IsIf, 0, true, ts;
    if s !in syms {
      cp := SkipArgsAt(ts);
    } else if syms[s].Undef? {
      lt := IsFalse;
    } else if syms[s].Number? {
      val := ToInt(syms[s].v);
      lt := if val != 0 then IsTrue else IsFalse;
      cp := SkipArgsAt(ts);
    } else {
      lt := IsError;
    }
  }

  /** The call through ops->inner. */
  method InnerAt(level: nat, ts: seq<Token>, syms: Symbols, strict: bool)
    returns (lt: Verdict, val: int, sym: bool, cp: seq<Token>)
    requires level <= 3
    ensures Encodes(lt, val, sym, cp, Inner(level, ts, syms, strict))
    decreases |ts|, 2 * (4 - level) - 1
  {
    hide EvalUnary, EvalTable;
    if level == 3 {
      lt, val, sym, cp := UnaryAt(ts, syms, strict);
    } else {
      lt, val, sym, cp := TableAt(level + 1, ts, syms, strict);
    }
  }

  /** eval_table() from the cursor `ts`. */
  method TableAt(level: nat, ts: seq<Token>, syms: Symbols, strict: bool)
    returns (lt: Verdict, val: int, sym: bool, cp: seq<Token>)
    requires level <= 3
    ensures Encodes(lt, val, sym, cp, EvalTable(level, ts, syms, strict))
    decreases |ts|, 2 * (4 - level)
  {
    hide EvalUnary, EvalLoop;
    lt, val, sym, cp := InnerAt(level, ts, syms, strict);
    TableIsLoop(level, ts, syms, strict);
    hide EvalTable, Inner, OpVal;
    if lt.IsError? {
      LoopError(level, syms, strict);
      return;
    }
    InnerShrinks(level, ts, syms, strict);
    while AtLevel(level, cp)
      invariant Consistent(lt, val) && |cp| < |ts|
      invariant EvalTable(level, ts, syms, strict) == EvalLoop(level, Ok(ToVal(lt, val), sym, cp), syms, strict)
      decreases |cp|
    {
      LoopGoesOn(level, ToVal(lt, val), sym, cp, syms, strict);
      InnerShrinks(level, cp[1..], syms, strict);
      var op := cp[0].op;
      var rt, rval, rsym, rest := InnerAt(level, cp[1..], syms, strict);
      if rt.IsError? {
        lt := IsError;
        return;
      }
      lt, val := OpFn(op, lt, val, rt, rval, strict);
      sym, cp := sym || rsym, rest;
    }
    LoopEnds(level, ToVal(lt, val), sym, cp, syms, strict);
  }

  lemma TableIsLoop(level: nat, ts: seq<Token>, syms: Symbols, strict: bool)
    requires level <= 3
    ensures EvalTable(level, ts, syms, strict) == EvalLoop(level, Inner(level, ts, syms, strict), syms, strict)
  {
    hide EvalUnary, EvalLoop;
  }

  lemma LoopError(level: nat, syms: Symbols, strict: bool)
    requires level <= 3
    ensures EvalLoop(level, Err, syms, strict) == Err
  {
  }

  lemma InnerShrinks(level: nat, ts: seq<Token>, syms: Symbols, strict: bool)
    requires level <= 3
    ensures Inner(level, ts, syms, strict).Ok? ==> |Inner(level, ts, syms, strict).rest| < |ts|
  {
    hide EvalUnary, EvalTable;
  }

  lemma LoopGoesOn(level: nat, val: Val, sym: bool, cp: seq<Token>, syms: Symbols, strict: bool)
    requires level <= 3 && AtLevel(level, cp)
    ensures var b := Inner(level, cp[1..], syms, strict);
            EvalLoop(level, Ok(val, sym, cp), syms, strict) ==
            if b.Err? then Err
            else EvalLoop(level, Ok(OpVal(cp[0].op, val, b.val, strict), sym || b.sym, b.rest), syms, strict)
  {
    hide EvalUnary, EvalTable, OpVal;
  }

  lemma LoopEnds(level: nat, val: Val, sym: bool, cp: seq<Token>, syms: Symbols, strict: bool)
    requires level <= 3 && !AtLevel(level, cp)
    ensures EvalLoop(level, Ok(val, sym, cp), syms, strict) == Ok(val, sym, cp)
  {
  }
}
