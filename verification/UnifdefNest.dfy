/**
 When unifdef gets to the end of the file: the nesting of the directives decides, and the
 output is always properly nested.
 */
module UnifdefNest {
  import opened OptionType
  import opened Unifdef

  /** The open groups after a line, each with whether its #else was seen; None if the line is out of place. */
  function NestStep(gs: seq<bool>, t: Text): Option<seq<bool>> {
    match t
    case TPlain(_) => Some(gs)
    case TIf(_) => Some(gs + [false])
    case TElif(_) => if gs == [] || gs[|gs| - 1] then None else Some(gs)
    case TElse => if gs == [] || gs[|gs| - 1] then None else Some(gs[..|gs| - 1] + [true])
    case TEndif => if gs == [] then None else Some(gs[..|gs| - 1])
  }

  /** The directives are in place and every group is closed. */
  predicate WellNested(gs: seq<bool>, ts: seq<Text>)
    decreases ts
  {
    if ts == [] then gs == []
    else NestStep(gs, ts[0]).Some? && WellNested(NestStep(gs, ts[0]).value, ts[1..])
  }

  /** The largest number of groups open at once, from `depth` on. */
  function Deepest(depth: nat, ts: seq<Text>): nat
    decreases ts
  {
    if ts == [] then depth
    else
      var next := if ts[0].TIf? then depth + 1 else if ts[0].TEndif? && depth > 0 then depth - 1 else depth;
      var rest := Deepest(next, ts[1..]);
      if rest > depth then rest else depth
  }

  function Seen(gs: seq<Group>): seq<bool> {
    seq(|gs|, i requires 0 <= i < |gs| => gs[i].elseSeen)
  }

  lemma NestEnter(gs: seq<Group>, t: Text, v: Valuation)
    ensures Enter(gs, t, v).Some? == NestStep(Seen(gs), t).Some?
    ensures Enter(gs, t, v).Some? ==> Seen(Enter(gs, t, v).value) == NestStep(Seen(gs), t).value
  {
    hide Included;
  }

  /** Conditional inclusion is defined exactly on properly nested text, whatever the conditions are. */
  lemma {:induction false} PreprocessDefined(gs: seq<Group>, ts: seq<Text>, v: Valuation)
    ensures Preprocess(gs, ts, v).Some? <==> WellNested(Seen(gs), ts)
    decreases ts
  {
    if ts != [] {
      hide Enter, NestStep;
      NestEnter(gs, ts[0], v);
      if Enter(gs, ts[0], v).Some? {
        PreprocessDefined(Enter(gs, ts[0], v).value, ts[1..], v);
      }
    }
  }

  /** No group on the stack is the file itself. */
  predicate Proper(stack: seq<Ifstate>) {
    forall i :: 0 <= i < |stack| ==> stack[i] != Outside
  }

  predicate InElse(st: Ifstate) {
    st.PassElse? || st.FalseElse? || st.TrueElse?
  }

  /** The open groups of the input, read off the stack. */
  function InNest(stack: seq<Ifstate>): seq<bool> {
    seq(|stack|, i requires 0 <= i < |stack| => InElse(stack[i]))
  }

  predicate OutElse(st: Ifstate) {
    st.PassElse? || st.TrueMiddle?
  }

  /** The open groups of the output, read off the stack. */
  function OutNest(stack: seq<Ifstate>): seq<bool> {
    if stack == [] then []
    else OutNest(stack[..|stack| - 1]) + (if HasOutput(stack[|stack| - 1]) then [OutElse(stack[|stack| - 1])] else [])
  }

  lemma OutNestPush(stack: seq<Ifstate>, st: Ifstate)
    ensures OutNest(stack + [st]) == OutNest(stack) + (if HasOutput(st) then [OutElse(st)] else [])
  {
    assert (stack + [st])[..|stack|] == stack;
  }

  /** A step keeps both readings of the stack in step with the lines read and the lines printed. */
  ghost predicate NestOk(stack: seq<Ifstate>, l: Line, r: Outcome)
    requires r.Go?
  {
    && Proper(r.stack)
    && NestStep(InNest(stack), Written(l)) == Some(InNest(r.stack))
    && (r.out.Some? ==> NestStep(OutNest(stack), r.out.value) == Some(OutNest(r.stack)))
    && (r.out.None? ==> OutNest(r.stack) == OutNest(stack))
  }

  /** The lines that the table accepts where they stand. */
  predicate Accepted(stack: seq<Ifstate>, lt: LineType, iocccok: bool) {
    match lt
    case Plain => true
    case Directive(k, dodgy) =>
      if Opens(k) then |stack| < 63 && (dodgy && k != If && Printing(Top(stack)) ==> iocccok)
      else if k == Endif then stack != [] && (dodgy ==> Top(stack).PassMiddle? || Top(stack).TrueMiddle? || Top(stack).PassElse?)
      else BeforeElse(Top(stack)) && (dodgy ==> DodgyMove(Top(stack), k, iocccok))
  }

  lemma OpenNest(stack: seq<Ifstate>, l: Line, iocccok: bool)
    requires Proper(stack) && l.lt.Directive? && Opens(l.lt.kind)
    ensures Step(stack, l, iocccok).Go? <==> Accepted(stack, l.lt, iocccok)
    ensures Step(stack, l, iocccok).Go? ==> NestOk(stack, l, Step(stack, l, iocccok))
  {
    hide Step, OutNest, Printing, Top;
    OpenTable(stack, l, iocccok);
    var r := Step(stack, l, iocccok);
    if r.Go? {
      var st := r.stack[|stack|];
      OutNestPush(stack, st);
      assert InNest(stack + [st]) == InNest(stack) + [false];
    }
  }

  lemma CloseNest(stack: seq<Ifstate>, l: Line, iocccok: bool)
    requires Proper(stack) && l.lt.Directive? && l.lt.kind == Endif
    ensures Step(stack, l, iocccok).Go? <==> Accepted(stack, l.lt, iocccok)
    ensures Step(stack, l, iocccok).Go? ==> NestOk(stack, l, Step(stack, l, iocccok))
  {
    hide Step, Printing;
    CloseTable(stack, l, iocccok);
    if stack != [] {
      assert InNest(stack)[..|stack| - 1] == InNest(stack[..|stack| - 1]);
    }
  }

  lemma MoveNest(stack: seq<Ifstate>, l: Line, iocccok: bool)
    requires Proper(stack) && l.lt.Directive? && (Continues(l.lt.kind) || l.lt.kind == Else)
    ensures Step(stack, l, iocccok).Go? <==> Accepted(stack, l.lt, iocccok)
    ensures Step(stack, l, iocccok).Go? ==> NestOk(stack, l, Step(stack, l, iocccok))
  {
    hide Step, Printing;
    MoveTable(stack, l, iocccok);
    if Step(stack, l, iocccok).Go? {
      hide BeforeElse, DodgyMove;
      MoveNestGo(stack, l);
    }
  }

  /** What an #elif or #else prints keeps the output nested. */
  lemma MoveNestOut(o: seq<bool>, st: Ifstate, l: Line)
    requires l.lt.Directive? && (Continues(l.lt.kind) || l.lt.kind == Else) && BeforeElse(st)
    ensures var ns := MoveTo(st, l.lt.kind, l.lt.dodgy);
            var before := o + if HasOutput(st) then [OutElse(st)] else [];
            var after := o + if HasOutput(ns) then [OutElse(ns)] else [];
            if MoveOut(st, l).Some? then NestStep(before, MoveOut(st, l).value) == Some(after) else before == after
  {
    var x, y := o + [false], o + [true];
    assert x[..|o|] == o && y[..|o|] == o && o + [] == o;
  }

  lemma MoveNestIn(i: seq<bool>, st: Ifstate, l: Line)
    requires l.lt.Directive? && (Continues(l.lt.kind) || l.lt.kind == Else) && BeforeElse(st)
    ensures NestStep(i + [InElse(st)], Written(l)) == Some(i + [InElse(MoveTo(st, l.lt.kind, l.lt.dodgy))])
    ensures MoveTo(st, l.lt.kind, l.lt.dodgy) != Outside
  {
    assert (i + [false])[..|i|] == i;
  }

  lemma MoveNestGo(stack: seq<Ifstate>, l: Line)
    requires Proper(stack) && stack != [] && l.lt.Directive? && (Continues(l.lt.kind) || l.lt.kind == Else)
    requires BeforeElse(Top(stack))
    ensures NestOk(stack, l, Go(Set(stack, MoveTo(Top(stack), l.lt.kind, l.lt.dodgy)), MoveOut(Top(stack), l)))
  {
    hide OutNest, MoveTo, MoveOut, Written, NestStep, InElse, OutElse, HasOutput;
    var p, st, ns := Pop(stack), Top(stack), MoveTo(Top(stack), l.lt.kind, l.lt.dodgy);
    assert stack == p + [st];
    OutNestPush(p, st);
    OutNestPush(p, ns);
    assert InNest(p + [st]) == InNest(p) + [InElse(st)];
    assert InNest(p + [ns]) == InNest(p) + [InElse(ns)];
    MoveNestIn(InNest(p), st, l);
    MoveNestOut(OutNest(p), st, l);
  }

  /** One line: it is accepted or not as told by the stack, and both readings of the stack stay right. */
  lemma StepNest(stack: seq<Ifstate>, l: Line, iocccok: bool)
    requires Proper(stack)
    ensures Step(stack, l, iocccok).Go? <==> Accepted(stack, l.lt, iocccok)
    ensures Step(stack, l, iocccok).Go? ==> NestOk(stack, l, Step(stack, l, iocccok))
  {
    hide Step, Accepted, NestOk;
    if l.lt == Plain {
      PlainNest(stack, l, iocccok);
    } else if Opens(l.lt.kind) {
      OpenNest(stack, l, iocccok);
    } else if l.lt.kind == Endif {
      CloseNest(stack, l, iocccok);
    } else {
      MoveNest(stack, l, iocccok);
    }
  }

  lemma PlainNest(stack: seq<Ifstate>, l: Line, iocccok: bool)
    requires Proper(stack) && l.lt == Plain
    ensures Accepted(stack, l.lt, iocccok) && Step(stack, l, iocccok).Go? && NestOk(stack, l, Step(stack, l, iocccok))
  {
    hide Step, InNest, OutNest;
    PlainTable(stack, l, iocccok);
  }

  /** Whatever unifdef prints when it gets to the end of the file is properly nested, and so was the input. */
  lemma {:induction false} RunNests(stack: seq<Ifstate>, lines: seq<Line>, iocccok: bool)
    requires Proper(stack) && |stack| <= 63 && Run(stack, lines, iocccok).Some?
    ensures WellNested(InNest(stack), Source(lines)) && Deepest(|stack|, Source(lines)) <= 63
    ensures WellNested(OutNest(stack), Run(stack, lines, iocccok).value)
    decreases lines
  {
    hide Step, NestStep, Written, OutNest, InNest, Accepted;
    StackNests(stack);
    if lines != [] {
      var l, r := lines[0], Step(stack, lines[0], iocccok);
      StepNest(stack, l, iocccok);
      StepDepth(stack, l, iocccok);
      RunNests(r.stack, lines[1..], iocccok);
      assert Source(lines)[1..] == Source(lines[1..]);
      var rest := Run(r.stack, lines[1..], iocccok).value;
      assert [] + rest == rest;
      assert r.out.Some? ==> ([r.out.value] + rest)[1..] == rest;
    }
  }

  lemma StackNests(stack: seq<Ifstate>)
    ensures |InNest(stack)| == |stack| && (stack == [] ==> OutNest(stack) == [])
  {
  }

  lemma StepDepth(stack: seq<Ifstate>, l: Line, iocccok: bool)
    requires Proper(stack) && Step(stack, l, iocccok).Go?
    ensures var n := |Step(stack, l, iocccok).stack|;
            n == if Written(l).TIf? then |stack| + 1 else if Written(l).TEndif? && |stack| > 0 then |stack| - 1 else |stack|
    ensures Written(l).TIf? ==> |stack| < 63
  {
    hide Step, Printing, OutNest;
    StepNest(stack, l, iocccok);
    StackNests(stack);
    StackNests(Step(stack, l, iocccok).stack);
    hide InNest;
  }

  predicate Clean(lines: seq<Line>) {
    forall i :: 0 <= i < |lines| ==> lines[i].lt.Directive? ==> !lines[i].lt.dodgy
  }

  /** A line that is not dodgy is accepted exactly where the nesting allows it. */
  lemma CleanAccepted(stack: seq<Ifstate>, l: Line, iocccok: bool)
    requires Proper(stack) && (l.lt.Directive? ==> !l.lt.dodgy)
    ensures Accepted(stack, l.lt, iocccok) <==> NestStep(InNest(stack), Written(l)).Some? && (Written(l).TIf? ==> |stack| < 63)
  {
    hide Printing;
  }

  /**
   A file without dodgy lines is processed to its end if and only if its directives nest properly
   and are never more than 63 deep.
   */
  lemma {:induction false} CleanRuns(stack: seq<Ifstate>, lines: seq<Line>, iocccok: bool)
    requires Proper(stack) && |stack| <= 63 && Clean(lines)
    ensures Run(stack, lines, iocccok).Some? <==>
            WellNested(InNest(stack), Source(lines)) && Deepest(|stack|, Source(lines)) <= 63
    decreases lines
  {
    hide Step, NestStep, Written, OutNest, InNest, Accepted;
    StackNests(stack);
    if lines != [] {
      var l, r := lines[0], Step(stack, lines[0], iocccok);
      StepNest(stack, l, iocccok);
      CleanAccepted(stack, l, iocccok);
      assert Source(lines)[1..] == Source(lines[1..]);
      if r.Go? {
        StepDepth(stack, l, iocccok);
        CleanRuns(r.stack, lines[1..], iocccok);
      } else {
        DeepestAtLeast(|stack| + 1, Source(lines[1..]));
      }
    }
  }

  lemma DeepestAtLeast(depth: nat, ts: seq<Text>)
    ensures Deepest(depth, ts) >= depth
  {
  }

  /** The input of a whole file, with its output. */
  lemma WholeFile(lines: seq<Line>, iocccok: bool)
    ensures Run([], lines, iocccok).Some? ==>
            WellNested([], Source(lines)) && Deepest(0, Source(lines)) <= 63 && WellNested([], Run([], lines, iocccok).value)
    ensures Clean(lines) ==>
            (Run([], lines, iocccok).Some? <==> WellNested([], Source(lines)) && Deepest(0, Source(lines)) <= 63)
  {
    StackNests([]);
    if Run([], lines, iocccok).Some? {
      RunNests([], lines, iocccok);
    }
    if Clean(lines) {
      CleanRuns([], lines, iocccok);
    }
  }

  /** A dodgy directive that the table accepts. */
  predicate DodgyAccepted(stack: seq<Ifstate>, l: Line, iocccok: bool) {
    l.lt.Directive? && l.lt.dodgy && Step(stack, l, iocccok).Go?
  }

  /** Printing or dropping goes on as before the line, and the line itself is printed as it stands or dropped. */
  predicate Unaffected(stack: seq<Ifstate>, l: Line, r: Outcome) {
    && r.Go?
    && Printing(Top(r.stack)) == Printing(Top(stack))
    && r.out == if Printing(Top(stack)) then Some(Written(l)) else None
  }

  lemma DodgyStep(stack: seq<Ifstate>, ins: seq<Group>, outs: seq<Group>, l: Line, iocccok: bool)
    requires Sim(stack, ins, outs) && DodgyAccepted(stack, l, iocccok)
    ensures Unaffected(stack, l, Step(stack, l, iocccok)) <==> !(Top(stack) == FalsePrefix && l.lt.kind == Elif)
  {
    hide Step, Pop, Sim;
    if Opens(l.lt.kind) {
      OpenTable(stack, l, iocccok);
    } else if l.lt.kind == Endif {
      CloseTable(stack, l, iocccok);
      SimTop(stack, ins, outs);
    } else {
      MoveTable(stack, l, iocccok);
      assert Set(stack, MoveTo(Top(stack), l.lt.kind, true))[|Pop(stack)|] == MoveTo(Top(stack), l.lt.kind, true);
    }
  }

  /** The stack after some lines of a run. */
  function After(stack: seq<Ifstate>, lines: seq<Line>, iocccok: bool): Option<seq<Ifstate>>
    decreases lines
  {
    if lines == [] then Some(stack)
    else
      var r := Step(stack, lines[0], iocccok);
      if r.Go? then After(r.stack, lines[1..], iocccok) else None
  }

  /** Every stack of a run belongs to groups of the input and groups of the output. */
  lemma {:induction false} ReachedSim(stack: seq<Ifstate>, ins: seq<Group>, outs: seq<Group>, lines: seq<Line>, iocccok: bool)
    returns (ins': seq<Group>, outs': seq<Group>)
    requires Sim(stack, ins, outs) && After(stack, lines, iocccok).Some?
    ensures Sim(After(stack, lines, iocccok).value, ins', outs')
    decreases lines
  {
    hide Step, Sim, Enter, Emits;
    ins', outs' := ins, outs;
    if lines != [] {
      var l := lines[0];
      var v: Valuation := _ => l.lt.Directive? && l.lt.kind in {TrueI, True, ElTrue};
      StepSim(stack, ins, outs, l, iocccok, v);
      var r := Step(stack, l, iocccok);
      ins', outs' := ReachedSim(r.stack, Enter(ins, Written(l), v).value,
                                if r.out.Some? then Enter(outs, r.out.value, v).value else outs, lines[1..], iocccok);
    }
  }

  /**
   At every point of every run, a dodgy directive that is accepted causes no change between printing and dropping if
   and only if it is not an #elif of unknown condition after a deleted prefix.
   */
  lemma DodgyKeepsPrinting(lines: seq<Line>, l: Line, iocccok: bool)
    requires After([], lines, iocccok).Some? && DodgyAccepted(After([], lines, iocccok).value, l, iocccok)
    ensures var stack := After([], lines, iocccok).value;
            Unaffected(stack, l, Step(stack, l, iocccok)) <==> !(Top(stack) == FalsePrefix && l.lt.kind == Elif)
  {
    hide Step, DodgyAccepted, Unaffected;
    var ins, outs := ReachedSim([], [], [], lines, iocccok);
    DodgyStep(After([], lines, iocccok).value, ins, outs, l, iocccok);
  }

  /** The exception happens: after an #if found false, a dropped group turns into a printed one at a dodgy line. */
  lemma DodgyTurnsPrinting(first: Line, l: Line, iocccok: bool)
    requires first.lt == Directive(False, false) && l.lt == Directive(Elif, true)
    ensures After([], [first], iocccok) == Some([FalsePrefix])
    ensures DodgyAccepted([FalsePrefix], l, iocccok) && !Printing(FalsePrefix)
    ensures Step([FalsePrefix], l, iocccok) == Go([PassMiddle], Some(TIf(l.cond))) && Printing(PassMiddle)
  {
    assert Step([], first, iocccok) == Go([FalsePrefix], None);
  }
}
