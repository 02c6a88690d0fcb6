/**
 The expressions of #if lines: their tokens, their grammar with C's precedence and left
 association, their value in C, and what unifdef's evaluator makes of them.
 */
module UnifdefExpr {
  import opened OptionType

  datatype Op = Or | And | Eq | Ne | Le | Ge | Lt | Gt

  /** What the evaluator tells apart in the text; `OtherToken` is any text it cannot read. */
  datatype Token =
    | NotToken | LParen | RParen | NumToken(n: nat) | DefinedToken | SymToken(s: nat) | OpToken(op: Op) | OtherToken

  /** What -D or -U says about a symbol. */
  datatype Def = Undef | Number(v: int) | NotNumber

  type Symbols = map<nat, Def>

  /** `Def(paren, arg)` is `defined arg` or `defined (arg)`; the evaluator also reads on when no symbol is there. */
  datatype Expr =
    | Num(n: nat) | Sym(s: nat) | Call(s: nat, args: seq<Token>) | IsDefined(paren: bool, arg: Option<Token>)
    | Not(e: Expr) | Paren(e: Expr) | Bin(op: Op, l: Expr, r: Expr)

  /** The row of eval_ops that has the operator. */
  function Level(op: Op): (n: nat)
    ensures n <= 3
  {
    match op
    case Or => 0 case And => 1 case Eq => 2 case Ne => 2 case _ => 3
  }

  /** A symbol name or a number, which the evaluator also takes as a name. */
  predicate IsName(t: Token) {
    t.NumToken? || t.DefinedToken? || t.SymToken?
  }

  /** How many parentheses are open after the tokens. */
  function Depth(d: int, ts: seq<Token>): int
    decreases ts
  {
    if ts == [] then d else Depth(if ts[0].LParen? then d + 1 else if ts[0].RParen? then d - 1 else d, ts[1..])
  }

  /** Parenthesised arguments: the first parenthesis closes at the last token and no sooner. */
  predicate Arguments(args: seq<Token>) {
    |args| > 0 && args[0].LParen? && Depth(0, args) == 0 && (forall i :: 0 < i < |args| ==> Depth(0, args[..i]) != 0)
  }

  /** The tokens of an expression. */
  function Flat(e: Expr): seq<Token> {
    match e
    case Num(n) => [NumToken(n)]
    case Sym(s) => [SymToken(s)]
    case Call(s, args) => [SymToken(s)] + args
    case IsDefined(paren, arg) =>
      var a := if arg.Some? then [arg.value] else [];
      if paren then [DefinedToken, LParen] + a + [RParen] else [DefinedToken] + a
    case Not(x) => [NotToken] + Flat(x)
    case Paren(x) => [LParen] + Flat(x) + [RParen]
    case Bin(op, l, r) => Flat(l) + [OpToken(op)] + Flat(r)
  }

  /** C's grammar: an operator's left operand may be of its own level, its right operand must bind tighter. */
  predicate Grammatical(e: Expr, level: nat, syms: Symbols) {
    match e
    case Num(_) => true
    case Sym(_) => true
    case Call(s, args) => Arguments(args) && !(s in syms && syms[s].Undef?)
    case IsDefined(_, arg) => arg.Some? ==> IsName(arg.value)
    case Not(x) => Grammatical(x, 4, syms)
    case Paren(x) => Grammatical(x, 0, syms)
    case Bin(op, l, r) => level <= Level(op) && Grammatical(l, Level(op), syms) && Grammatical(r, Level(op) + 1, syms)
  }

  /* The value in C. */

  /** What the symbols stand for; `call` and `odd` give values to the forms whose value unifdef does not know. */
  datatype Env = Env(defined: nat -> bool, value: nat -> int, call: (nat, seq<Token>) -> int, odd: Token -> int)

  function Truth(b: bool): int {
    if b then 1 else 0
  }

  function OpValue(op: Op, a: int, b: int): int {
    match op
    case Or => Truth(a != 0 || b != 0)
    case And => Truth(a != 0 && b != 0)
    case Eq => Truth(a == b)
    case Ne => Truth(a != b)
    case Le => Truth(a <= b)
    case Ge => Truth(a >= b)
    case Lt => Truth(a < b)
    case Gt => Truth(a > b)
  }

  /** The value of an expression; all arithmetic is in intmax_t, and there is none that could overflow. */
  function CValue(e: Expr, env: Env): int {
    match e
    case Num(n) => n
    case Sym(s) => if env.defined(s) then env.value(s) else 0
    case Call(s, args) => env.call(s, args)
    case IsDefined(_, arg) =>
      if arg.None? then env.odd(OtherToken) else if arg.value.SymToken? then Truth(env.defined(arg.value.s)) else env.odd(arg.value)
    case Not(x) => Truth(CValue(x, env) == 0)
    case Paren(x) => CValue(x, env)
    case Bin(op, l, r) => OpValue(op, CValue(l, env), CValue(r, env))
  }

  /** The environment is one that -D and -U describe. */
  ghost predicate Describes(syms: Symbols, env: Env) {
    forall s :: s in syms ==>
      && env.defined(s) == !syms[s].Undef?
      && (syms[s].Number? ==> env.value(s) == syms[s].v && forall args :: env.call(s, args) == syms[s].v)
  }

  /* The evaluator. */

  const INT_MIN := -0x8000_0000
  const INT_MAX := 0x7fff_ffff

  predicate FitsInt(n: int) {
    INT_MIN <= n <= INT_MAX
  }

  /** strtol() assigned to an int: clamped to 64 bits, then cut to 32. */
  function ToInt(n: int): (r: int)
    ensures FitsInt(r)
  {
    var l := if n > 0x7fff_ffff_ffff_ffff then 0x7fff_ffff_ffff_ffff
             else if n < -0x8000_0000_0000_0000 then -0x8000_0000_0000_0000 else n;
    var w := l % 0x1_0000_0000;
    if w > INT_MAX then w - 0x1_0000_0000 else w
  }

  /** A literal or a value keeps its value exactly when it fits an int. */
  lemma ToIntExact(n: int)
    ensures ToInt(n) == n <==> FitsInt(n)
  {
  }

  /** LT_IF is Unknown; LT_TRUE and LT_FALSE are Known with a nonzero value and with zero. */
  datatype Val = Unknown | Known(v: int)

  /** op_strict, op_or and op_and; `strict` is option -K. */
  function OpVal(op: Op, a: Val, b: Val, strict: bool): Val {
    if op.Or? && !strict && ((a.Known? && a.v != 0) || (b.Known? && b.v != 0)) then Known(1)
    else if op.And? && !strict && (a == Known(0) || b == Known(0)) then Known(0)
    else if a.Unknown? || b.Unknown? then Unknown
    else Known(OpValue(op, a.v, b.v))
  }

  /** What the evaluator makes of an expression; None is LT_ERROR. */
  function Abs(e: Expr, syms: Symbols, strict: bool): Option<Val> {
    match e
    case Num(n) => Some(Known(ToInt(n)))
    case Sym(s) => SymVal(s, syms)
    case Call(s, _) => SymVal(s, syms)
    case IsDefined(_, arg) => Some(DefinedVal(arg, syms))
    case Not(x) =>
      var a := Abs(x, syms, strict);
      if a == None || a == Some(Unknown) then a else Some(Known(Truth(a.value.v == 0)))
    case Paren(x) => Abs(x, syms, strict)
    case Bin(op, l, r) =>
      var a, b := Abs(l, syms, strict), Abs(r, syms, strict);
      if a.None? || b.None? then None else Some(OpVal(op, a.value, b.value, strict))
  }

  function DefinedVal(arg: Option<Token>, syms: Symbols): Val {
    if arg.Some? && arg.value.SymToken? && arg.value.s in syms then Known(Truth(!syms[arg.value.s].Undef?)) else Unknown
  }

  function SymVal(s: nat, syms: Symbols): Option<Val> {
    if s !in syms then Some(Unknown)
    else match syms[s]
      case Undef => Some(Known(0))
      case Number(v) => Some(Known(ToInt(v)))
      case NotNumber => None
  }

  /** The literals of the expression and the values of its symbols. */
  function Operands(e: Expr, syms: Symbols): set<int> {
    match e
    case Num(n) => {n}
    case Sym(s) => if s in syms && syms[s].Number? then {syms[s].v} else {}
    case Call(s, _) => if s in syms && syms[s].Number? then {syms[s].v} else {}
    case IsDefined(_, _) => {}
    case Not(x) => Operands(x, syms)
    case Paren(x) => Operands(x, syms)
    case Bin(_, l, r) => Operands(l, syms) + Operands(r, syms)
  }

  /** Cutting the values to an int keeps their order. */
  ghost predicate Ordered(vals: set<int>) {
    forall a, b :: a in vals && b in vals && a < b ==> ToInt(a) < ToInt(b)
  }

  /** The values of the expression, with the values of conditions, keep their order. */
  ghost predicate InOrder(e: Expr, syms: Symbols) {
    Ordered({0, 1} + Operands(e, syms))
  }

  /** Values that fit an int keep their order; next to the least and the largest int no others do. */
  lemma OrderedIffFit(vals: set<int>)
    ensures (forall v :: v in vals ==> FitsInt(v)) ==> Ordered(vals)
    ensures INT_MIN in vals && INT_MAX in vals && Ordered(vals) ==> forall v :: v in vals ==> FitsInt(v)
  {
    forall v ensures ToInt(v) == v <==> FitsInt(v) {
      ToIntExact(v);
    }
    hide ToInt;
  }

  lemma OrderedPart(some: set<int>, vals: set<int>)
    requires some <= vals && Ordered(vals)
    ensures Ordered(some)
  {
  }

  /** An operator compares the cut values as it does the values. */
  lemma {:induction false} OpKept(op: Op, a: int, b: int, vals: set<int>)
    requires Ordered(vals) && 0 in vals && 1 in vals && a in vals && b in vals
    ensures OpValue(op, ToInt(a), ToInt(b)) == OpValue(op, a, b) == ToInt(OpValue(op, a, b)) && OpValue(op, a, b) in vals
    ensures a == 0 <==> ToInt(a) == 0
  {
    assert ToInt(0) == 0 && ToInt(1) == 1;
    hide ToInt;
  }

  /**
   Where the cut keeps the order, a value the evaluator knows is the cut of the value the expression has in C, in both
   modes.
   */
  lemma {:induction false} AbsSound(e: Expr, syms: Symbols, strict: bool, env: Env, vals: set<int>)
    requires Describes(syms, env) && Grammatical(e, 0, syms)
    requires Ordered(vals) && 0 in vals && 1 in vals && Operands(e, syms) <= vals
    requires Abs(e, syms, strict).Some? && Abs(e, syms, strict).value.Known?
    ensures CValue(e, env) in vals && Abs(e, syms, strict).value.v == ToInt(CValue(e, env))
  {
    OpKept(Eq, 0, 1, vals);
    OpKept(Eq, 0, 0, vals);
    hide ToInt, Ordered, OpVal, OpValue;
    match e
    case Num(n) =>
    case Sym(s) => assert syms[s].Number? ==> env.value(s) == syms[s].v;
    case Call(s, args) =>
    case IsDefined(_, arg) =>
    case Not(x) =>
      Looser(x, 4, 0, syms);
      AbsSound(x, syms, strict, env, vals);
      OpKept(Eq, CValue(x, env), 0, vals);
    case Paren(x) => AbsSound(x, syms, strict, env, vals);
    case Bin(op, l, r) =>
      Looser(l, Level(op), 0, syms);
      Looser(r, Level(op) + 1, 0, syms);
      var a, b := Abs(l, syms, strict).value, Abs(r, syms, strict).value;
      if a.Known? { AbsSound(l, syms, strict, env, vals); }
      if b.Known? { AbsSound(r, syms, strict, env, vals); }
      OpSound(op, a, CValue(l, env), b, CValue(r, env), strict, vals);
  }

  /** An operator on values known or unknown. */
  lemma {:induction false} OpSound(op: Op, a: Val, x: int, b: Val, y: int, strict: bool, vals: set<int>)
    requires Ordered(vals) && 0 in vals && 1 in vals && OpVal(op, a, b, strict).Known?
    requires (a.Known? ==> x in vals && a.v == ToInt(x)) && (b.Known? ==> y in vals && b.v == ToInt(y))
    ensures OpValue(op, x, y) in vals && OpVal(op, a, b, strict).v == ToInt(OpValue(op, x, y))
  {
    if a.Known? { OpKept(Eq, x, 0, vals); }
    if b.Known? { OpKept(Eq, y, 0, vals); }
    if a.Known? && b.Known? { OpKept(op, x, y, vals); }
    OpKept(Eq, 0, 0, vals);
    OpKept(Eq, 0, 1, vals);
    hide ToInt, Ordered;
  }

  /** What binds tightly may stand where looser binding is allowed. */
  lemma Looser(e: Expr, high: nat, low: nat, syms: Symbols)
    requires low <= high && Grammatical(e, high, syms)
    ensures Grammatical(e, low, syms)
  {
  }
}
