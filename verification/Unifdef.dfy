/**
 The #if machine of unifdef: a table indexed by the state of the current group and the type
 of the line, and a stack of group states.
 */
module Unifdef {
  import opened OptionType

  datatype Kind = TrueI | FalseI | If | True | False | Elif | ElTrue | ElFalse | Else | Endif

  /** A dodgy directive is not on one line; parseline never returns LT_ERROR. */
  datatype LineType = Directive(kind: Kind, dodgy: bool) | Plain

  /** `cond` stands for the condition of an #if or #elif, `text` for the text of an ordinary line. */
  datatype Line = Line(lt: LineType, cond: nat, text: nat)

  datatype Ifstate =
    | Outside | FalsePrefix | TruePrefix | PassMiddle | FalseMiddle
    | TrueMiddle | PassElse | FalseElse | TrueElse | FalseTrailer

  /** The transition functions; Edodgy stands for Eioccc. */
  datatype Fn =
    | Eelif | Eelse | Eendif | Eeof | Edodgy | Print | Drop | Done
    | Strue | Sfalse | Selse | Pelif | Pelse | Pendif
    | Dfalse | Delif | Delse | Dendif | Fdrop | Fpass | Ftrue | Ffalse
    | Oiffy | Oif | Oelif | Idrop | Itrue | Ifalse | Mpass | Mtrue | Melif | Melse

  /** The entry of a row of the table: its ten columns are in the order of Kind. */
  function Row(k: Kind, truei: Fn, falsei: Fn, if_: Fn, true_: Fn, false_: Fn,
               elif: Fn, eltrue: Fn, elfalse: Fn, else_: Fn, endif: Fn): Fn
  {
    match k
    case TrueI => truei case FalseI => falsei case If => if_ case True => true_ case False => false_
    case Elif => elif case ElTrue => eltrue case ElFalse => elfalse case Else => else_ case Endif => endif
  }

  /** The entries for a line that is not dodgy. */
  function CleanEntry(st: Ifstate, k: Kind): Fn {
    match st
    case Outside      => Row(k, Itrue, Ifalse, Fpass, Ftrue, Ffalse, Eelif,  Eelif,  Eelif,  Eelse, Eendif)
    case FalsePrefix  => Row(k, Idrop, Idrop,  Fdrop, Fdrop, Fdrop,  Mpass,  Strue,  Sfalse, Selse, Dendif)
    case TruePrefix   => Row(k, Itrue, Ifalse, Fpass, Ftrue, Ffalse, Dfalse, Dfalse, Dfalse, Delse, Dendif)
    case PassMiddle   => Row(k, Itrue, Ifalse, Fpass, Ftrue, Ffalse, Pelif,  Mtrue,  Delif,  Pelse, Pendif)
    case FalseMiddle  => Row(k, Idrop, Idrop,  Fdrop, Fdrop, Fdrop,  Pelif,  Mtrue,  Delif,  Pelse, Pendif)
    case TrueMiddle   => Row(k, Itrue, Ifalse, Fpass, Ftrue, Ffalse, Melif,  Melif,  Melif,  Melse, Pendif)
    case PassElse     => Row(k, Itrue, Ifalse, Fpass, Ftrue, Ffalse, Eelif,  Eelif,  Eelif,  Eelse, Pendif)
    case FalseElse    => Row(k, Idrop, Idrop,  Fdrop, Fdrop, Fdrop,  Eelif,  Eelif,  Eelif,  Eelse, Dendif)
    case TrueElse     => Row(k, Itrue, Ifalse, Fpass, Ftrue, Ffalse, Eelif,  Eelif,  Eelif,  Eelse, Dendif)
    case FalseTrailer => Row(k, Idrop, Idrop,  Fdrop, Fdrop, Fdrop,  Dfalse, Dfalse, Dfalse, Delse, Dendif)
  }

  /** The entries for a dodgy line. */
  function DodgyEntry(st: Ifstate, k: Kind): Fn {
    match st
    case Outside      => Row(k, Oiffy, Oiffy, Fpass, Oif,   Oif,   Eelif,  Eelif,  Eelif,  Eelse,  Eendif)
    case FalsePrefix  => Row(k, Idrop, Idrop, Fdrop, Fdrop, Fdrop, Mpass,  Edodgy, Edodgy, Edodgy, Edodgy)
    case TruePrefix   => Row(k, Oiffy, Oiffy, Fpass, Oif,   Oif,   Edodgy, Edodgy, Edodgy, Edodgy, Edodgy)
    case PassMiddle   => Row(k, Oiffy, Oiffy, Fpass, Oif,   Oif,   Pelif,  Oelif,  Oelif,  Pelse,  Pendif)
    case FalseMiddle  => Row(k, Idrop, Idrop, Fdrop, Fdrop, Fdrop, Edodgy, Edodgy, Edodgy, Edodgy, Edodgy)
    case TrueMiddle   => Row(k, Oiffy, Oiffy, Fpass, Oif,   Oif,   Edodgy, Edodgy, Edodgy, Edodgy, Pendif)
    case PassElse     => Row(k, Oiffy, Oiffy, Fpass, Oif,   Oif,   Eelif,  Eelif,  Eelif,  Eelse,  Pendif)
    case FalseElse    => Row(k, Idrop, Idrop, Fdrop, Fdrop, Fdrop, Eelif,  Eelif,  Eelif,  Eelse,  Edodgy)
    case TrueElse     => Row(k, Oiffy, Oiffy, Fpass, Oif,   Oif,   Eelif,  Eelif,  Eelif,  Eelse,  Edodgy)
    case FalseTrailer => Row(k, Idrop, Idrop, Fdrop, Fdrop, Fdrop, Dfalse, Dfalse, Dfalse, Delse,  Edodgy)
  }

  /** Whether the text of the current group is being printed. */
  predicate Printing(st: Ifstate) {
    match st
    case Outside => true case TruePrefix => true case PassMiddle => true
    case TrueMiddle => true case PassElse => true case TrueElse => true
    case _ => false
  }

  /** trans_table */
  function TransTable(st: Ifstate, lt: LineType): Fn {
    match lt
    case Directive(k, d) => if d then DodgyEntry(st, k) else CleanEntry(st, k)
    case Plain => if Printing(st) then Print else Drop
  }

  /** The LT_EOF column of trans_table. */
  function EofEntry(st: Ifstate): Fn {
    if st == Outside then Done else Eeof
  }

  /** A line of C that conditional inclusion looks at. */
  datatype Text = TIf(cond: nat) | TElif(cond: nat) | TElse | TEndif | TPlain(text: nat)

  /** A directive that opens a group. */
  predicate Opens(k: Kind) {
    k.TrueI? || k.FalseI? || k.If? || k.True? || k.False?
  }

  /** A directive that goes on with a group under a new condition. */
  predicate Continues(k: Kind) {
    k.Elif? || k.ElTrue? || k.ElFalse?
  }

  /** The line as written. */
  function Written(l: Line): Text {
    match l.lt
    case Plain => TPlain(l.text)
    case Directive(k, _) =>
      if Opens(k) then TIf(l.cond)
      else if Continues(k) then TElif(l.cond)
      else if k == Else then TElse
      else TEndif
  }

  /** What a transition does: fail, stop, or go on with new group states and perhaps a line of output. */
  datatype Outcome = Fail | Stop | Go(stack: seq<Ifstate>, out: Option<Text>)

  /** ifstate[1..depth] is `stack`; the state at depth 0 is always Outside. */
  function Top(stack: seq<Ifstate>): Ifstate {
    if stack == [] then Outside else stack[|stack| - 1]
  }

  function Pop(stack: seq<Ifstate>): seq<Ifstate> {
    if stack == [] then [] else stack[..|stack| - 1]
  }

  /** state() at the current depth. */
  function Set(stack: seq<Ifstate>, st: Ifstate): seq<Ifstate> {
    Pop(stack) + [st]
  }

  /** nest() and state(): MAXDEPTH is 64 and counts depth 0. */
  function Nest(stack: seq<Ifstate>, st: Ifstate, out: Option<Text>): Outcome {
    if |stack| >= 63 then Fail else Go(stack + [st], out)
  }

  /** The transition functions on the group states and the output; `iocccok` is option -e. */
  function Apply(f: Fn, stack: seq<Ifstate>, l: Line, iocccok: bool): Outcome {
    match f
    case Eelif => Fail case Eelse => Fail case Eendif => Fail case Eeof => Fail case Edodgy => Fail
    case Done => Stop
    case Print => Go(stack, Some(Written(l)))
    case Drop => Go(stack, None)
    case Strue => Go(Set(stack, TruePrefix), None)
    case Sfalse => Go(Set(stack, FalsePrefix), None)
    case Selse => Go(Set(stack, TrueElse), None)
    case Pelif => Go(Set(stack, PassMiddle), Some(Written(l)))
    case Pelse => Go(Set(stack, PassElse), Some(Written(l)))
    case Pendif => Go(Pop(stack), Some(Written(l)))
    case Dfalse => Go(Set(stack, FalseTrailer), None)
    case Delif => Go(Set(stack, FalseMiddle), None)
    case Delse => Go(Set(stack, FalseElse), None)
    case Dendif => Go(Pop(stack), None)
    case Fdrop => Nest(stack, FalseTrailer, None)
    case Fpass => Nest(stack, PassMiddle, Some(Written(l)))
    case Ftrue => Nest(stack, TruePrefix, None)
    case Ffalse => Nest(stack, FalsePrefix, None)
    case Oiffy => if iocccok then Nest(stack, PassMiddle, Some(Written(l))) else Fail
    case Oif => if iocccok then Nest(stack, PassMiddle, Some(Written(l))) else Fail
    case Oelif => if iocccok then Go(Set(stack, PassMiddle), Some(Written(l))) else Fail
    case Idrop => Nest(stack, FalseTrailer, None)
    case Itrue => Nest(stack, TruePrefix, None)
    case Ifalse => Nest(stack, FalsePrefix, None)
    case Mpass => Go(Set(stack, PassMiddle), Some(TIf(l.cond)))
    case Mtrue => Go(Set(stack, TrueMiddle), Some(TElse))
    case Melif => Go(Set(stack, FalseTrailer), Some(TEndif))
    case Melse => Go(Set(stack, FalseElse), Some(TEndif))
  }

  function Step(stack: seq<Ifstate>, l: Line, iocccok: bool): Outcome {
    Apply(TransTable(Top(stack), l.lt), stack, l, iocccok)
  }

  /** process() from a given stack to the end of the file: the lines it prints, if it gets to done(). */
  function Run(stack: seq<Ifstate>, lines: seq<Line>, iocccok: bool): Option<seq<Text>>
    decreases lines
  {
    if lines == [] then
      if EofEntry(Top(stack)) == Done then Some([]) else None
    else match Step(stack, lines[0], iocccok)
      case Fail => None
      case Stop => None
      case Go(stack', out) =>
        match Run(stack', lines[1..], iocccok)
        case None => None
        case Some(rest) => Some((if out.Some? then [out.value] else []) + rest)
  }

  /* Conditional inclusion, section 6.10.1 of ISO/IEC 9899:1999. */

  /**
   A group that has begun: whether the lines around it are included, whether one of its
   conditions so far held, whether its current part is the chosen one, and whether #else was seen.
   */
  datatype Group = Group(outer: bool, taken: bool, on: bool, elseSeen: bool)

  /** Lines here are included. */
  predicate Included(gs: seq<Group>) {
    gs == [] || (gs[|gs| - 1].outer && gs[|gs| - 1].on)
  }

  type Valuation = nat -> bool

  /** The groups after a line; None if the line is out of place. */
  function Enter(gs: seq<Group>, t: Text, v: Valuation): Option<seq<Group>> {
    match t
    case TPlain(_) => Some(gs)
    case TIf(c) => Some(gs + [Group(Included(gs), v(c), v(c), false)])
    case TElif(c) =>
      if gs == [] || gs[|gs| - 1].elseSeen then None else
      var g := gs[|gs| - 1];
      Some(gs[..|gs| - 1] + [Group(g.outer, g.taken || v(c), !g.taken && v(c), false)])
    case TElse =>
      if gs == [] || gs[|gs| - 1].elseSeen then None else
      var g := gs[|gs| - 1];
      Some(gs[..|gs| - 1] + [Group(g.outer, true, !g.taken, true)])
    case TEndif =>
      if gs == [] then None else Some(gs[..|gs| - 1])
  }

  /** What a line adds to the included text. */
  function Emits(gs: seq<Group>, t: Text): seq<nat> {
    if t.TPlain? && Included(gs) then [t.text] else []
  }

  /** The ordinary lines that conditional inclusion keeps, if the directives nest properly. */
  function Preprocess(gs: seq<Group>, ts: seq<Text>, v: Valuation): Option<seq<nat>>
    decreases ts
  {
    if ts == [] then
      if gs == [] then Some([]) else None
    else
      match Enter(gs, ts[0], v)
      case None => None
      case Some(gs') =>
        match Preprocess(gs', ts[1..], v)
        case None => None
        case Some(rest) => Some(Emits(gs, ts[0]) + rest)
  }

  function Source(lines: seq<Line>): seq<Text> {
    seq(|lines|, i requires 0 <= i < |lines| => Written(lines[i]))
  }

  /** The valuation gives a line's condition the value unifdef knows it to have. */
  predicate Agrees(l: Line, v: Valuation) {
    match l.lt
    case Plain => true
    case Directive(k, _) =>
      && (k in {TrueI, True, ElTrue} ==> v(l.cond))
      && (k in {FalseI, False, ElFalse} ==> !v(l.cond))
  }

  /* The simulation. */

  /** The states in which the group's opening directive has been printed and not yet closed. */
  predicate HasOutput(st: Ifstate) {
    st.PassMiddle? || st.FalseMiddle? || st.TrueMiddle? || st.PassElse?
  }

  /** How a group in state `st` looks in the input (`a`) and, if it has been opened there, in the output (`b`). */
  ghost predicate GroupRel(st: Ifstate, parentPrints: bool, a: Group, b: Group) {
    match st
    case Outside => false
    case FalsePrefix => parentPrints && !a.taken && !a.on && !a.elseSeen
    case TruePrefix => parentPrints && a.taken && a.on && !a.elseSeen
    case PassMiddle => parentPrints && a.taken == b.taken && a.on == b.on && !a.elseSeen && !b.elseSeen
    case FalseMiddle => parentPrints && a.taken == b.taken && !a.on && !a.elseSeen && !b.elseSeen
    case TrueMiddle => parentPrints && a.taken && a.on == b.on && !a.elseSeen && b.elseSeen
    case PassElse => parentPrints && a.on == b.on && a.elseSeen && b.elseSeen
    case FalseElse => a.elseSeen && !(a.outer && a.on)
    case TrueElse => parentPrints && a.on && a.elseSeen
    case FalseTrailer => !a.elseSeen && !(a.outer && a.on) && (parentPrints ==> a.taken)
  }

  /** The group states, the groups of the input and the groups of the output belong together. */
  ghost predicate Sim(stack: seq<Ifstate>, ins: seq<Group>, outs: seq<Group>)
    decreases |stack|
  {
    if stack == [] then ins == [] && outs == []
    else
      var st, rest := Top(stack), Pop(stack);
      && |ins| > 0
      && (HasOutput(st) ==> |outs| > 0)
      && var ins', outs' := ins[..|ins| - 1], if HasOutput(st) then outs[..|outs| - 1] else outs;
      var a := ins[|ins| - 1];
      var b := if HasOutput(st) then outs[|outs| - 1] else a;
      && Sim(rest, ins', outs')
      && a.outer == Included(ins')
      && (HasOutput(st) ==> b.outer == Included(outs'))
      && GroupRel(st, Printing(Top(rest)), a, b)
  }

  /** Where lines are printed, input and output include the same; where they are dropped, the input includes nothing. */
  lemma {:induction false} SimIncluded(stack: seq<Ifstate>, ins: seq<Group>, outs: seq<Group>)
    requires Sim(stack, ins, outs)
    ensures Printing(Top(stack)) ==> Included(ins) == Included(outs)
    ensures !Printing(Top(stack)) ==> !Included(ins)
    decreases |stack|
  {
    if stack != [] {
      var st := Top(stack);
      SimIncluded(Pop(stack), ins[..|ins| - 1], if HasOutput(st) then outs[..|outs| - 1] else outs);
    }
  }

  /** The state `st` set on top of a simulated stack, with the input's group `a` and the output's group `b`. */
  lemma SimPush(stack: seq<Ifstate>, ins: seq<Group>, outs: seq<Group>, st: Ifstate, a: Group, b: Group)
    requires Sim(stack, ins, outs) && a.outer == Included(ins) && b.outer == Included(outs)
    requires GroupRel(st, Printing(Top(stack)), a, b) || (!HasOutput(st) && GroupRel(st, Printing(Top(stack)), a, a))
    ensures Sim(stack + [st], ins + [a], if HasOutput(st) then outs + [b] else outs)
  {
    var stack', ins' := stack + [st], ins + [a];
    assert Pop(stack') == stack && Top(stack') == st;
    assert ins'[..|ins'| - 1] == ins && (outs + [b])[..|outs|] == outs;
  }

  /** The groups of the output below the current one. */
  function Below(st: Ifstate, outs: seq<Group>): seq<Group> {
    if HasOutput(st) && outs != [] then outs[..|outs| - 1] else outs
  }

  /** The current group of the output; if the group has not been opened there, a group that stands for nothing. */
  function LastOutput(st: Ifstate, outs: seq<Group>): Group {
    if HasOutput(st) && outs != [] then outs[|outs| - 1] else Group(Included(outs), false, false, false)
  }

  /** What a line means for input and output. */
  ghost predicate StepOk(ins: seq<Group>, outs: seq<Group>, l: Line, r: Outcome, v: Valuation)
    requires r.Go?
  {
    && Enter(ins, Written(l), v).Some?
    && (r.out.Some? ==> Enter(outs, r.out.value, v).Some?)
    && Sim(r.stack, Enter(ins, Written(l), v).value, if r.out.Some? then Enter(outs, r.out.value, v).value else outs)
    && Emits(ins, Written(l)) == if r.out.Some? then Emits(outs, r.out.value) else []
  }

  /** What the table does with an ordinary line. */
  lemma PlainTable(stack: seq<Ifstate>, l: Line, iocccok: bool)
    requires l.lt == Plain
    ensures Step(stack, l, iocccok) == Go(stack, if Printing(Top(stack)) then Some(TPlain(l.text)) else None)
  {
    hide CleanEntry, DodgyEntry, Printing;
  }

  /** The state in which a group begins. */
  function FirstState(prints: bool, k: Kind, dodgy: bool): Ifstate {
    if !prints then FalseTrailer
    else if dodgy || k.If? then PassMiddle
    else if k.TrueI? || k.True? then TruePrefix else FalsePrefix
  }

  /** What the table does with a line that opens a group. */
  lemma OpenTable(stack: seq<Ifstate>, l: Line, iocccok: bool)
    requires l.lt.Directive? && Opens(l.lt.kind)
    ensures var prints := Printing(Top(stack));
            var st := FirstState(prints, l.lt.kind, l.lt.dodgy);
            Step(stack, l, iocccok) ==
            if |stack| >= 63 || (prints && l.lt.dodgy && !l.lt.kind.If? && !iocccok) then Fail
            else Go(stack + [st], if st.PassMiddle? then Some(TIf(l.cond)) else None)
  {
    hide Set, Pop, Top;
    if l.lt.dodgy {
      OpenDodgy(Top(stack), l.lt.kind);
    } else {
      OpenClean(Top(stack), l.lt.kind);
    }
    hide CleanEntry, DodgyEntry, Printing;
  }

  lemma OpenClean(st: Ifstate, k: Kind)
    requires Opens(k)
    ensures CleanEntry(st, k) == if !Printing(st) then (if k.TrueI? || k.FalseI? then Idrop else Fdrop)
                                 else match k
                                   case TrueI => Itrue case FalseI => Ifalse case True => Ftrue case False => Ffalse
                                   case _ => Fpass
  {
  }

  lemma OpenDodgy(st: Ifstate, k: Kind)
    requires Opens(k)
    ensures DodgyEntry(st, k) == if !Printing(st) then (if k.TrueI? || k.FalseI? then Idrop else Fdrop)
                                 else if k.If? then Fpass else if k.TrueI? || k.FalseI? then Oiffy else Oif
  {
  }

  /** What the table does with a line that closes a group. */
  lemma CloseTable(stack: seq<Ifstate>, l: Line, iocccok: bool)
    requires l.lt.Directive? && l.lt.kind == Endif
    ensures var st := Top(stack);
            Step(stack, l, iocccok) ==
            if st == Outside || (l.lt.dodgy && st !in {PassMiddle, TrueMiddle, PassElse}) then Fail
            else Go(Pop(stack), if HasOutput(st) then Some(TEndif) else None)
  {
    hide Set, Pop, Nest;
  }

  /** A simulated stack that is not empty, taken apart. */
  lemma SimTop(stack: seq<Ifstate>, ins: seq<Group>, outs: seq<Group>)
    requires Sim(stack, ins, outs) && stack != []
    ensures |ins| > 0 && (HasOutput(Top(stack)) ==> |outs| > 0)
    ensures Sim(Pop(stack), ins[..|ins| - 1], Below(Top(stack), outs))
    ensures ins[|ins| - 1].outer == Included(ins[..|ins| - 1])
    ensures HasOutput(Top(stack)) ==> LastOutput(Top(stack), outs).outer == Included(Below(Top(stack), outs))
    ensures GroupRel(Top(stack), Printing(Top(Pop(stack))), ins[|ins| - 1], LastOutput(Top(stack), outs))
  {
    hide Included, Printing;
  }

  lemma PlainSim(stack: seq<Ifstate>, ins: seq<Group>, outs: seq<Group>, l: Line, iocccok: bool, v: Valuation)
    requires Sim(stack, ins, outs) && l.lt == Plain
    ensures Step(stack, l, iocccok).Go? && StepOk(ins, outs, l, Step(stack, l, iocccok), v)
  {
    hide Step, Sim, Printing, Included;
    PlainTable(stack, l, iocccok);
    SimIncluded(stack, ins, outs);
  }

  lemma OpenSim(stack: seq<Ifstate>, ins: seq<Group>, outs: seq<Group>, l: Line, iocccok: bool, v: Valuation)
    requires Sim(stack, ins, outs) && l.lt.Directive? && Opens(l.lt.kind) && Agrees(l, v)
    requires Step(stack, l, iocccok).Go?
    ensures StepOk(ins, outs, l, Step(stack, l, iocccok), v)
  {
    hide Step, Sim, Printing, Included;
    SimIncluded(stack, ins, outs);
    OpenTable(stack, l, iocccok);
    var a, b := Group(Included(ins), v(l.cond), v(l.cond), false), Group(Included(outs), v(l.cond), v(l.cond), false);
    var st := Step(stack, l, iocccok).stack[|stack|];
    SimPush(stack, ins, outs, st, a, b);
  }

  lemma CloseSim(stack: seq<Ifstate>, ins: seq<Group>, outs: seq<Group>, l: Line, iocccok: bool, v: Valuation)
    requires Sim(stack, ins, outs) && l.lt.Directive? && l.lt.kind == Endif
    requires Step(stack, l, iocccok).Go?
    ensures StepOk(ins, outs, l, Step(stack, l, iocccok), v)
  {
    hide Step, Sim, Printing, Included, GroupRel, Pop, HasOutput;
    CloseTable(stack, l, iocccok);
    SimTop(stack, ins, outs);
  }

  /** The state of a group after an #elif or #else. */
  function MoveTo(st: Ifstate, k: Kind, dodgy: bool): Ifstate {
    match st
    case FalsePrefix =>
      if k == Elif then PassMiddle else if k == ElTrue then TruePrefix else if k == ElFalse then FalsePrefix else TrueElse
    case PassMiddle =>
      if k == Else then PassElse else if k == Elif || dodgy then PassMiddle
      else if k == ElTrue then TrueMiddle else FalseMiddle
    case FalseMiddle =>
      if k == Elif then PassMiddle else if k == ElTrue then TrueMiddle else if k == ElFalse then FalseMiddle else PassElse
    case _ => if k == Else then FalseElse else FalseTrailer
  }

  /** What is printed for an #elif or #else. */
  function MoveOut(st: Ifstate, l: Line): Option<Text>
    requires l.lt.Directive?
  {
    match st
    case FalsePrefix => if l.lt.kind == Elif then Some(TIf(l.cond)) else None
    case TrueMiddle => Some(TEndif)
    case PassMiddle =>
      if l.lt.kind == Elif || l.lt.kind == Else || l.lt.dodgy then Some(Written(l))
      else if l.lt.kind == ElTrue then Some(TElse) else None
    case FalseMiddle =>
      if l.lt.kind == Elif || l.lt.kind == Else then Some(Written(l)) else if l.lt.kind == ElTrue then Some(TElse) else None
    case _ => None
  }

  /** The groups in which #elif and #else are in place. */
  predicate BeforeElse(st: Ifstate) {
    st.FalsePrefix? || st.TruePrefix? || st.PassMiddle? || st.FalseMiddle? || st.TrueMiddle? || st.FalseTrailer?
  }

  /** The dodgy #elif or #else lines that are accepted. */
  predicate DodgyMove(st: Ifstate, k: Kind, iocccok: bool) {
    st.FalseTrailer? || (st.FalsePrefix? && k.Elif?) || (st.PassMiddle? && (k.Elif? || k.Else? || iocccok))
  }

  /** What the table does with #elif and #else. */
  lemma MoveTable(stack: seq<Ifstate>, l: Line, iocccok: bool)
    requires l.lt.Directive? && (Continues(l.lt.kind) || l.lt.kind == Else)
    ensures var st := Top(stack);
            Step(stack, l, iocccok) ==
            if BeforeElse(st) && (l.lt.dodgy ==> DodgyMove(st, l.lt.kind, iocccok))
            then Go(Set(stack, MoveTo(st, l.lt.kind, l.lt.dodgy)), MoveOut(st, l)) else Fail
    ensures Step(stack, l, iocccok).Go? ==> stack != []
  {
    hide Set, Pop, Nest;
  }

  /** The input's group after an #elif or #else. */
  function MoveIn(a: Group, l: Line, v: Valuation): Group {
    if l.lt.Directive? && l.lt.kind == Else then Group(a.outer, true, !a.taken, true)
    else Group(a.outer, a.taken || v(l.cond), !a.taken && v(l.cond), false)
  }

  /** The output's group after what is printed for an #elif or #else. */
  function MoveB(b: Group, outer: bool, t: Text, v: Valuation): Group {
    match t
    case TIf(c) => Group(outer, v(c), v(c), false)
    case TElif(c) => Group(outer, b.taken || v(c), !b.taken && v(c), false)
    case _ => Group(outer, true, !b.taken, true)
  }

  /** The groups of input and output still belong together after an #elif or #else. */
  lemma MoveGroup(st: Ifstate, prints: bool, a: Group, b: Group, l: Line, outer: bool, iocccok: bool, v: Valuation)
    requires l.lt.Directive? && (Continues(l.lt.kind) || l.lt.kind == Else) && Agrees(l, v)
    requires BeforeElse(st) && (l.lt.dodgy ==> DodgyMove(st, l.lt.kind, iocccok))
    requires GroupRel(st, prints, a, b) && (prints ==> a.outer == outer) && (!prints ==> !a.outer)
    ensures !a.elseSeen && (HasOutput(st) && MoveOut(st, l) != Some(TEndif) ==> !b.elseSeen)
    ensures var ns, a' := MoveTo(st, l.lt.kind, l.lt.dodgy), MoveIn(a, l, v);
            var b' := if MoveOut(st, l).Some? then MoveB(b, outer, MoveOut(st, l).value, v) else b;
            GroupRel(ns, prints, a', b'.(outer := outer))
  {
  }

  /** What is printed for an #elif or #else does to the output's groups. */
  lemma MoveOutputs(st: Ifstate, outs: seq<Group>, l: Line, iocccok: bool, v: Valuation)
    requires l.lt.Directive? && (Continues(l.lt.kind) || l.lt.kind == Else) && BeforeElse(st)
    requires HasOutput(st) ==> |outs| > 0 && LastOutput(st, outs).outer == Included(Below(st, outs))
    requires HasOutput(st) && MoveOut(st, l) != Some(TEndif) ==> !LastOutput(st, outs).elseSeen
    ensures var o, ns := Below(st, outs), MoveTo(st, l.lt.kind, l.lt.dodgy);
            var b := LastOutput(st, outs);
            var b' := if MoveOut(st, l).Some? then MoveB(b, Included(o), MoveOut(st, l).value, v) else b;
            var outs' := if MoveOut(st, l).Some? then Enter(outs, MoveOut(st, l).value, v) else Some(outs);
            && outs' == Some(if HasOutput(ns) then o + [b'] else o)
            && b'.outer == Included(o)
            && (MoveOut(st, l).Some? ==> !MoveOut(st, l).value.TPlain?)
  {
    hide Included;
    assert |outs| > 0 ==> outs == outs[..|outs| - 1] + [outs[|outs| - 1]];
  }

  lemma MoveInputs(ins: seq<Group>, l: Line, v: Valuation)
    requires l.lt.Directive? && (Continues(l.lt.kind) || l.lt.kind == Else)
    requires |ins| > 0 && !ins[|ins| - 1].elseSeen
    ensures Enter(ins, Written(l), v) == Some(ins[..|ins| - 1] + [MoveIn(ins[|ins| - 1], l, v)])
    ensures !Written(l).TPlain? && MoveIn(ins[|ins| - 1], l, v).outer == ins[|ins| - 1].outer
  {
    hide Included;
  }

  lemma MoveSim(stack: seq<Ifstate>, ins: seq<Group>, outs: seq<Group>, l: Line, iocccok: bool, v: Valuation)
    requires Sim(stack, ins, outs) && l.lt.Directive? && (Continues(l.lt.kind) || l.lt.kind == Else) && Agrees(l, v)
    requires Step(stack, l, iocccok).Go?
    ensures StepOk(ins, outs, l, Step(stack, l, iocccok), v)
  {
    hide Step, Sim, Included, Top, Pop, GroupRel, Printing, MoveTo, MoveOut, MoveB, LastOutput, BeforeElse, DodgyMove,
      Enter, Written, MoveIn, HasOutput, Below, Agrees, Continues;
    MoveTable(stack, l, iocccok);
    SimTop(stack, ins, outs);
    var st, p, i, o := Top(stack), Pop(stack), ins[..|ins| - 1], Below(Top(stack), outs);
    var a, b := ins[|i|], LastOutput(st, outs);
    SimIncluded(p, i, o);
    MoveGroup(st, Printing(Top(p)), a, b, l, Included(o), iocccok, v);
    MoveOutputs(st, outs, l, iocccok, v);
    MoveInputs(ins, l, v);
    var b' := if MoveOut(st, l).Some? then MoveB(b, Included(o), MoveOut(st, l).value, v) else b;
    SimPush(p, i, o, MoveTo(st, l.lt.kind, l.lt.dodgy), MoveIn(a, l, v), b'.(outer := Included(o)));
  }

  /** One line: the groups of input and output stay related and both include the same text. */
  lemma StepSim(stack: seq<Ifstate>, ins: seq<Group>, outs: seq<Group>, l: Line, iocccok: bool, v: Valuation)
    requires Sim(stack, ins, outs) && Agrees(l, v) && Step(stack, l, iocccok).Go?
    ensures StepOk(ins, outs, l, Step(stack, l, iocccok), v)
  {
    hide Step, Sim, StepOk, Agrees;
    if l.lt == Plain {
      PlainSim(stack, ins, outs, l, iocccok, v);
    } else if Opens(l.lt.kind) {
      OpenSim(stack, ins, outs, l, iocccok, v);
    } else if l.lt.kind == Endif {
      CloseSim(stack, ins, outs, l, iocccok, v);
    } else {
      MoveSim(stack, ins, outs, l, iocccok, v);
    }
  }

  lemma {:induction false} RunSim(stack: seq<Ifstate>, ins: seq<Group>, outs: seq<Group>, lines: seq<Line>,
                                  iocccok: bool, v: Valuation)
    requires Sim(stack, ins, outs) && (forall i :: 0 <= i < |lines| ==> Agrees(lines[i], v))
    requires Run(stack, lines, iocccok).Some?
    ensures Preprocess(ins, Source(lines), v).Some?
    ensures Preprocess(ins, Source(lines), v) == Preprocess(outs, Run(stack, lines, iocccok).value, v)
    decreases lines
  {
    hide Step, Agrees, Enter, Emits, Written, Sim, Preprocess, Run, Source;
    if lines == [] {
      RunEnds(stack, ins, outs, iocccok, v);
    } else {
      var l, r := lines[0], Step(stack, lines[0], iocccok);
      RunHead(stack, lines, iocccok);
      StepSim(stack, ins, outs, l, iocccok, v);
      var ins' := Enter(ins, Written(l), v).value;
      var outs' := if r.out.Some? then Enter(outs, r.out.value, v).value else outs;
      RunSim(r.stack, ins', outs', lines[1..], iocccok, v);
      var rest := Run(r.stack, lines[1..], iocccok).value;
      PreprocessNext(ins, Written(l), Source(lines[1..]), v);
      if r.out.Some? {
        PreprocessNext(outs, r.out.value, rest, v);
      } else {
        var kept := Preprocess(outs, rest, v).value;
        assert [] + kept == kept;
      }
    }
  }

  lemma RunHead(stack: seq<Ifstate>, lines: seq<Line>, iocccok: bool)
    requires lines != [] && Run(stack, lines, iocccok).Some?
    ensures var r := Step(stack, lines[0], iocccok);
            && r.Go? && Run(r.stack, lines[1..], iocccok).Some?
            && Run(stack, lines, iocccok).value ==
               (if r.out.Some? then [r.out.value] + Run(r.stack, lines[1..], iocccok).value else Run(r.stack, lines[1..], iocccok).value)
    ensures Source(lines) == [Written(lines[0])] + Source(lines[1..])
  {
    hide Step, Written;
    var r := Step(stack, lines[0], iocccok);
    assert r.Go?;
    var rest := Run(r.stack, lines[1..], iocccok).value;
    assert [] + rest == rest;
  }

  lemma RunEnds(stack: seq<Ifstate>, ins: seq<Group>, outs: seq<Group>, iocccok: bool, v: Valuation)
    requires Sim(stack, ins, outs) && Run(stack, [], iocccok).Some?
    ensures Preprocess(ins, Source([]), v) == Preprocess(outs, Run(stack, [], iocccok).value, v) == Some([])
  {
    if stack != [] {
      SimTop(stack, ins, outs);
    }
    assert stack == [];
  }

  lemma PreprocessNext(gs: seq<Group>, t: Text, ts: seq<Text>, v: Valuation)
    requires Enter(gs, t, v).Some? && Preprocess(Enter(gs, t, v).value, ts, v).Some?
    ensures Preprocess(gs, [t] + ts, v) == Some(Emits(gs, t) + Preprocess(Enter(gs, t, v).value, ts, v).value)
  {
    hide Enter, Emits;
    assert ([t] + ts)[1..] == ts;
  }

  /**
   Whenever unifdef gets to the end of the file, its output and its input keep the same ordinary lines under
   every valuation of the conditions that gives the known ones their known value.
   */
  lemma OutputMeansInput(lines: seq<Line>, iocccok: bool, v: Valuation)
    requires Run([], lines, iocccok).Some?
    requires forall i :: 0 <= i < |lines| ==> Agrees(lines[i], v)
    ensures Preprocess([], Run([], lines, iocccok).value, v).Some?
    ensures Preprocess([], Run([], lines, iocccok).value, v) == Preprocess([], Source(lines), v)
  {
    RunSim([], [], [], lines, iocccok, v);
  }
}
