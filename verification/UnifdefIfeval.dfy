/** ifeval() and the classification of directive lines; the evaluator as it moves its cursor. */
module UnifdefIfeval {
  import opened OptionType
  import opened UnifdefExpr
  import opened UnifdefEval

  /** LT_TRUE, LT_FALSE, LT_IF and LT_ERROR as evaluation results. */
  datatype Verdict = IsTrue | IsFalse | IsIf | IsError

  /** ifeval() with the check of parseline that nothing follows; `killconsts` is option -k. */
  function Ifeval(ts: seq<Token>, syms: Symbols, strict: bool, killconsts: bool): Verdict {
    var r := EvalTable(0, ts, syms, strict);
    if r.Err? || r.rest != [] || (!r.sym && !killconsts) || r.val.Unknown? then IsIf
    else if r.val.v != 0 then IsTrue else IsFalse
  }

  /**
   On the tokens of any expression of C's grammar the verdict is the one the grammar calls for: precedence and
   left association are C's, and a constant expression is left alone without -k.
   */
  lemma IfevalReads(e: Expr, syms: Symbols, strict: bool, killconsts: bool)
    requires Grammatical(e, 0, syms)
    ensures var a := Abs(e, syms, strict);
            Ifeval(Flat(e), syms, strict, killconsts) ==
            if a.None? || a.value.Unknown? || (!HasSym(e) && !killconsts) then IsIf
            else if a.value.v != 0 then IsTrue else IsFalse
  {
    ReadsTable(e, 0, [], syms, strict);
    assert Flat(e) + [] == Flat(e) && !AtLevel(0, []);
    hide EvalTable, Flat, Abs, HasSym;
  }

  /** Only expressions of C's grammar are found true or false. */
  lemma IfevalGrammatical(ts: seq<Token>, syms: Symbols, strict: bool, killconsts: bool) returns (e: Expr)
    requires Ifeval(ts, syms, strict, killconsts) in {IsTrue, IsFalse}
    ensures Grammatical(e, 0, syms) && Flat(e) == ts
  {
    e := TableRead(0, ts, syms, strict);
    hide EvalTable, Flat;
    assert Flat(e) + [] == Flat(e);
  }

  /** The verdict on the expression is right in the environment. */
  predicate SoundFor(e: Expr, syms: Symbols, strict: bool, killconsts: bool, env: Env) {
    && (Ifeval(Flat(e), syms, strict, killconsts) == IsTrue ==> CValue(e, env) != 0)
    && (Ifeval(Flat(e), syms, strict, killconsts) == IsFalse ==> CValue(e, env) == 0)
  }

  /**
   A condition found true is nonzero in C, one found false is zero, for every value of the symbols that
   -D and -U leave open, in both modes, if its literals and values, 0 and 1 keep their order when they are cut to an int.
   */
  lemma IfevalSound(e: Expr, syms: Symbols, strict: bool, killconsts: bool, env: Env)
    requires Grammatical(e, 0, syms) && InOrder(e, syms) && Describes(syms, env)
    ensures SoundFor(e, syms, strict, killconsts, env)
  {
    IfevalReads(e, syms, strict, killconsts);
    var vals := {0, 1} + Operands(e, syms);
    var a := Abs(e, syms, strict);
    if a.Some? && a.value.Known? {
      AbsSound(e, syms, strict, env, vals);
      OpKept(Eq, CValue(e, env), 0, vals);
    }
    hide Ifeval, Flat, Grammatical, Describes, CValue, Abs, HasSym;
  }

  /** The verdict on the expression is right in every environment that -D and -U describe. */
  ghost predicate SoundOn(e: Expr, syms: Symbols, strict: bool, killconsts: bool) {
    forall env :: Describes(syms, env) ==> SoundFor(e, syms, strict, killconsts, env)
  }

  /** The literals of the expression. */
  function Literals(e: Expr): set<nat> {
    match e
    case Num(n) => {n}
    case Not(x) => Literals(x)
    case Paren(x) => Literals(x)
    case Bin(_, l, r) => Literals(l) + Literals(r)
    case _ => {}
  }

  /** The values of -D options. */
  ghost function Values(syms: Symbols): set<int> {
    set s | s in syms && syms[s].Number? :: syms[s].v
  }

  /** The values that expressions over the literals can compare. */
  ghost function Comparable(lits: set<nat>, syms: Symbols): set<int> {
    {0, 1} + (set n | n in lits :: n as int) + Values(syms)
  }

  lemma {:induction false} OperandsIn(e: Expr, lits: set<nat>, syms: Symbols)
    requires Literals(e) <= lits
    ensures Operands(e, syms) <= Comparable(lits, syms)
  {
    match e
    case Num(n) => assert n in lits;
    case Sym(s) => assert s in syms && syms[s].Number? ==> syms[s].v in Values(syms);
    case Call(s, _) => assert s in syms && syms[s].Number? ==> syms[s].v in Values(syms);
    case Not(x) => OperandsIn(x, lits, syms);
    case Paren(x) => OperandsIn(x, lits, syms);
    case Bin(_, l, r) => OperandsIn(l, lits, syms); OperandsIn(r, lits, syms);
    case _ =>
  }

  /** The expression may stand anywhere, is cut to what the value is cut to, and has the value in every environment. */
  ghost predicate Stands(e: Expr, a: int, lits: set<nat>, syms: Symbols, strict: bool) {
    && (forall level :: Grammatical(e, level, syms)) && Literals(e) <= lits
    && Abs(e, syms, strict) == Some(Known(ToInt(a)))
    && forall env :: Describes(syms, env) ==> CValue(e, env) == a
  }

  /** A literal or a symbol that stands for a literal or a -D value. */
  lemma Atom(a: int, lits: set<nat>, syms: Symbols, strict: bool) returns (e: Expr)
    requires (a >= 0 && a in lits) || a in Values(syms)
    ensures Stands(e, a, lits, syms, strict)
  {
    if a >= 0 && a in lits {
      e := Num(a);
    } else {
      var s :| s in syms && syms[s].Number? && syms[s].v == a;
      e := Sym(s);
    }
  }

  lemma {:induction false} LiteralsIn(op: Op, l: Expr, r: Expr)
    ensures Literals(Bin(op, l, r)) == Literals(l) + Literals(r) && Literals(Not(l)) == Literals(l)
    ensures HasSym(Bin(op, l, r)) <==> HasSym(l) || HasSym(r)
  {
  }

  lemma {:induction false} BinIs(op: Op, l: Expr, r: Expr, syms: Symbols, strict: bool)
    requires Abs(l, syms, strict).Some? && Abs(r, syms, strict).Some?
    ensures Abs(Bin(op, l, r), syms, strict) == Some(OpVal(op, Abs(l, syms, strict).value, Abs(r, syms, strict).value, strict))
    ensures Grammatical(Bin(op, l, r), 0, syms) <==> Grammatical(l, Level(op), syms) && Grammatical(r, Level(op) + 1, syms)
  {
    hide OpVal;
  }

  lemma {:induction false} BinValue(op: Op, l: Expr, r: Expr, env: Env)
    ensures CValue(Bin(op, l, r), env) == OpValue(op, CValue(l, env), CValue(r, env))
  {
    hide OpValue;
  }

  /** Whether one comparison holds, in parentheses. */
  lemma {:induction false} Compared(op: Op, l: Expr, a: int, r: Expr, b: int, lits: set<nat>, syms: Symbols, strict: bool)
    requires op.Eq? || op.Ne? || op.Lt?
    requires Stands(l, a, lits, syms, strict) && Stands(r, b, lits, syms, strict)
    ensures var e := Paren(Bin(op, l, r));
      && (forall level :: Grammatical(e, level, syms)) && Literals(e) <= lits
      && Abs(e, syms, strict) == Some(Known(OpValue(op, ToInt(a), ToInt(b))))
      && forall env :: Describes(syms, env) ==> CValue(e, env) == OpValue(op, a, b)
  {
    hide ToInt;
    BinIs(op, l, r, syms, strict);
    LiteralsIn(op, l, r);
    assert Grammatical(Bin(op, l, r), 0, syms);
    forall env | Describes(syms, env) ensures CValue(Bin(op, l, r), env) == OpValue(op, a, b) {
      BinValue(op, l, r, env);
    }
  }

  /** Every value but 0 and 1 has its atom; these two are comparisons of any atom with itself. */
  lemma Term(a: int, other: int, lits: set<nat>, syms: Symbols, strict: bool) returns (e: Expr)
    requires a in Comparable(lits, syms) && ((other >= 0 && other in lits) || other in Values(syms))
    ensures Stands(e, a, lits, syms, strict)
  {
    if (a >= 0 && a in lits) || a in Values(syms) {
      e := Atom(a, lits, syms, strict);
    } else {
      assert a == 0 || a == 1;
      var x := Atom(other, lits, syms, strict);
      var op := if a == 0 then Ne else Eq;
      Compared(op, x, other, x, other, lits, syms, strict);
      assert ToInt(0) == 0 && ToInt(1) == 1;
      e := Paren(Bin(op, x, x));
    }
  }

  /** `a < b` for two values whose order is lost: it holds in C and is evaluated to 0. */
  lemma Misjudged(a: int, b: int, lits: set<nat>, syms: Symbols, strict: bool) returns (e: Expr)
    requires a in Comparable(lits, syms) && b in Comparable(lits, syms) && a < b && ToInt(a) >= ToInt(b)
    ensures (forall level :: Grammatical(e, level, syms)) && Literals(e) <= lits && Abs(e, syms, strict) == Some(Known(0))
    ensures forall env :: Describes(syms, env) ==> CValue(e, env) == 1
  {
    assert ToInt(0) == 0 && ToInt(1) == 1;
    hide Stands, ToInt;
    var other := if (a >= 0 && a in lits) || a in Values(syms) then a else b;
    var l := Term(a, other, lits, syms, strict);
    var r := Term(b, other, lits, syms, strict);
    Compared(Lt, l, a, r, b, lits, syms, strict);
    e := Paren(Bin(Lt, l, r));
  }

  /** `(defined(s) || !defined(s))` */
  function Either(s: nat): Expr {
    var def := IsDefined(true, Some(SymToken(s)));
    Paren(Bin(Or, def, Not(def)))
  }

  lemma EitherHolds(s: nat, syms: Symbols, strict: bool)
    requires strict ==> s in syms
    ensures (forall level :: Grammatical(Either(s), level, syms)) && HasSym(Either(s)) && Literals(Either(s)) == {}
    ensures Abs(Either(s), syms, strict).Some? && (strict ==> Abs(Either(s), syms, strict).value.Known?)
    ensures forall env :: CValue(Either(s), env) == 1
  {
    var def := IsDefined(true, Some(SymToken(s)));
    var neg := Not(def);
    assert (forall level :: Grammatical(def, level, syms)) && HasSym(def) && Literals(def) == {};
    assert forall level :: Grammatical(neg, level, syms);
    LiteralsIn(Or, def, neg);
    assert Abs(def, syms, strict) == Some(DefinedVal(Some(SymToken(s)), syms));
    assert Abs(neg, syms, strict).Some? && (strict ==> Abs(neg, syms, strict).value.Known?);
    BinIs(Or, def, neg, syms, strict);
    forall env ensures CValue(Bin(Or, def, neg), env) == 1 {
      BinValue(Or, def, neg, env);
      assert CValue(neg, env) == Truth(CValue(def, env) == 0);
    }
  }

  /** A constant expression, joined to one that always holds so that it has a symbol. */
  lemma {:induction false} WithSymbol(x: Expr, s: nat, lits: set<nat>, syms: Symbols, strict: bool)
    requires (forall level :: Grammatical(x, level, syms)) && Literals(x) <= lits && Abs(x, syms, strict) == Some(Known(0))
    requires (forall env :: Describes(syms, env) ==> CValue(x, env) == 1) && (strict ==> s in syms)
    ensures var e := Bin(And, x, Either(s));
      && Grammatical(e, 0, syms) && Literals(e) <= lits && Abs(e, syms, strict) == Some(Known(0)) && HasSym(e)
      && forall env :: Describes(syms, env) ==> CValue(e, env) == 1
  {
    EitherHolds(s, syms, strict);
    hide Either;
    BinIs(And, x, Either(s), syms, strict);
    LiteralsIn(And, x, Either(s));
    forall env | Describes(syms, env) ensures CValue(Bin(And, x, Either(s)), env) == 1 {
      BinValue(And, x, Either(s), env);
    }
  }

  /** With -K and neither -D nor -U, nothing is known of an expression with a symbol. */
  lemma {:induction false} StrictUnknown(e: Expr)
    ensures Abs(e, map[], true).Some? && (HasSym(e) ==> Abs(e, map[], true) == Some(Unknown))
  {
    match e
    case Not(x) => StrictUnknown(x);
    case Paren(x) => StrictUnknown(x);
    case Bin(_, l, r) => StrictUnknown(l); StrictUnknown(r);
    case _ =>
  }

  /** With -K and without -k, -D and -U no condition is found true or false. */
  lemma NothingFound(e: Expr)
    requires Grammatical(e, 0, map[])
    ensures Ifeval(Flat(e), map[], true, false) == IsIf
  {
    IfevalReads(e, map[], true, false);
    StrictUnknown(e);
  }

  /** Some environment is described by any symbol table. */
  function AnyEnv(syms: Symbols): Env {
    Env(s => s in syms && !syms[s].Undef?,
        s => if s in syms && syms[s].Number? then syms[s].v else 0,
        (s, args) => if s in syms && syms[s].Number? then syms[s].v else 0,
        t => 0)
  }

  /** No expression over the literals gets a wrong verdict. */
  ghost predicate SoundOver(lits: set<nat>, syms: Symbols, strict: bool, killconsts: bool) {
    forall e :: Grammatical(e, 0, syms) && Literals(e) <= lits ==> SoundOn(e, syms, strict, killconsts)
  }

  lemma OrderedSound(lits: set<nat>, syms: Symbols, strict: bool, killconsts: bool)
    requires Ordered(Comparable(lits, syms))
    ensures SoundOver(lits, syms, strict, killconsts)
  {
    hide Ifeval, Flat, CValue, Ordered, Comparable;
    forall e | Grammatical(e, 0, syms) && Literals(e) <= lits ensures SoundOn(e, syms, strict, killconsts) {
      OperandsIn(e, lits, syms);
      assert 0 in Comparable(lits, syms) && 1 in Comparable(lits, syms) by { TruthIn(lits, syms); }
      OrderedPart({0, 1} + Operands(e, syms), Comparable(lits, syms));
      forall env | Describes(syms, env) ensures SoundFor(e, syms, strict, killconsts, env) {
        IfevalSound(e, syms, strict, killconsts, env);
      }
    }
  }

  lemma TruthIn(lits: set<nat>, syms: Symbols)
    ensures 0 in Comparable(lits, syms) && 1 in Comparable(lits, syms)
  {
  }

  /** An expression that holds in C and is evaluated to 0 gets the wrong verdict, if it gets one. */
  lemma {:induction false} Unsound(e: Expr, lits: set<nat>, syms: Symbols, strict: bool, killconsts: bool)
    requires Grammatical(e, 0, syms) && Literals(e) <= lits && Abs(e, syms, strict) == Some(Known(0)) && (killconsts || HasSym(e))
    requires forall env :: Describes(syms, env) ==> CValue(e, env) == 1
    ensures !SoundOver(lits, syms, strict, killconsts)
  {
    IfevalReads(e, syms, strict, killconsts);
    hide Ifeval, Flat, Grammatical, Literals, CValue, Abs, HasSym;
    assert Describes(syms, AnyEnv(syms));
    assert !SoundFor(e, syms, strict, killconsts, AnyEnv(syms));
    assert !SoundOn(e, syms, strict, killconsts);
  }

  /**
   Literals and -D values are cut to an int. For any literals and any symbol table no verdict is wrong if and only if
   cutting keeps the order of the literals, the -D values, 0 and 1, or no verdict is given at all: with -K, and without
   -k, -D and -U.
   */
  lemma SoundIffOrdered(lits: set<nat>, syms: Symbols, strict: bool, killconsts: bool)
    ensures SoundOver(lits, syms, strict, killconsts) <==>
            Ordered(Comparable(lits, syms)) || (strict && !killconsts && syms == map[])
  {
    hide Ifeval, Flat, Abs, HasSym, ToInt, Comparable, CValue;
    if Ordered(Comparable(lits, syms)) {
      OrderedSound(lits, syms, strict, killconsts);
    } else if strict && !killconsts && syms == map[] {
      forall e | Grammatical(e, 0, syms) ensures SoundOn(e, syms, strict, killconsts) {
        NothingFound(e);
      }
    } else {
      var a, b :| a in Comparable(lits, syms) && b in Comparable(lits, syms) && a < b && ToInt(a) >= ToInt(b);
      var x := Misjudged(a, b, lits, syms, strict);
      if killconsts {
        Unsound(x, lits, syms, strict, killconsts);
      } else {
        var s := if syms == map[] then 0 else SomeKey(syms);
        WithSymbol(x, s, lits, syms, strict);
        Unsound(Bin(And, x, Either(s)), lits, syms, strict, killconsts);
      }
    }
  }

  ghost function SomeKey(syms: Symbols): (s: nat)
    requires syms != map[]
    ensures s in syms
  {
    var s :| s in syms;
    s
  }

  /** An instance: the verdict is wrong on some expression over 2147483647 and any literal that does not fit an int. */
  lemma TooBigMisjudged(n: nat, syms: Symbols, killconsts: bool)
    requires n > INT_MAX
    ensures !SoundOver({INT_MAX, n}, syms, false, killconsts)
  {
    SoundIffOrdered({INT_MAX, n}, syms, false, killconsts);
    hide SoundOver;
    ToIntExact(INT_MAX);
    var vals := Comparable({INT_MAX, n}, syms);
    assert INT_MAX in vals && n in vals;
  }
}
