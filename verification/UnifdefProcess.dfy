/** process(): the state machine with its array of group states, updated in place. */
module UnifdefProcess {
  import opened OptionType
  import opened Unifdef
  import opened UnifdefNest

  const MAXDEPTH := 64

  /** The functions for the first line of a group. */
  predicate Begins(f: Fn) {
    match f
    case Fdrop => true case Fpass => true case Ftrue => true case Ffalse => true case Oiffy => true
    case Oif => true case Idrop => true case Itrue => true case Ifalse => true
    case _ => false
  }

  /** The functions for a later line of a group that leave its text alone. */
  predicate Passes(f: Fn) {
    match f
    case Strue => true case Sfalse => true case Selse => true case Pelif => true case Pelse => true
    case Pendif => true case Dfalse => true case Delif => true case Delse => true case Dendif => true
    case Oelif => true
    case _ => false
  }

  /** The functions that edit the line. */
  predicate Modifies(f: Fn) {
    match f
    case Mpass => true case Mtrue => true case Melif => true case Melse => true
    case _ => false
  }

  /** The table sends no line outside all groups to a function that needs one, so abort() is never called. */
  lemma OutsideNeedsNone(lt: LineType)
    ensures !Passes(TransTable(Outside, lt)) && !Modifies(TransTable(Outside, lt))
  {
  }

  lemma NeverDone(st: Ifstate, lt: LineType)
    ensures TransTable(st, lt) != Done
  {
  }

  class Machine {
    const ifstate: array<Ifstate>
    var depth: nat
    var output: seq<Text>

    ghost predicate Valid()
      reads this, ifstate
    {
      && ifstate.Length == MAXDEPTH
      && depth < MAXDEPTH
      && ifstate[0] == Outside
      && Proper(Stack())
    }

    ghost function Stack(): (s: seq<Ifstate>)
      reads this, ifstate
      requires ifstate.Length == MAXDEPTH && depth < MAXDEPTH
      ensures |s| == depth
    {
      ifstate[1..depth + 1]
    }

    constructor ()
      ensures Valid() && fresh(ifstate) && Stack() == [] && output == []
    {
      ifstate := new Ifstate[MAXDEPTH](_ => Outside);
      depth := 0;
      output := [];
    }

    /** fputs */
    method Flush(t: Option<Text>)
      modifies this`output
      ensures output == old(output) + if t.Some? then [t.value] else []
    {
      if t.Some? {
        output := output + [t.value];
      } else {
        assert output + [] == output;
      }
    }

    /** First line of a group: nest(), print or drop, and state(). */
    method First(st: Ifstate, t: Option<Text>) returns (ok: bool)
      requires Valid() && st != Outside
      modifies this, ifstate
      ensures Valid()
      ensures ok <==> Nest(old(Stack()), st, t).Go?
      ensures ok ==> Stack() == old(Stack()) + [st] && output == old(output) + if t.Some? then [t.value] else []
    {
      if depth == MAXDEPTH - 1 {
        return false;
      }
      depth := depth + 1;
      Flush(t);
      ifstate[depth] := st;
      ok := true;
      assert Stack() == old(Stack()) + [st];
    }

    /** A line inside a group: print or drop, and state(). */
    method Here(st: Ifstate, t: Option<Text>)
      requires Valid() && depth > 0 && st != Outside
      modifies this`output, ifstate
      ensures Valid()
      ensures Stack() == Set(old(Stack()), st) && output == old(output) + if t.Some? then [t.value] else []
    {
      Flush(t);
      ifstate[depth] := st;
      assert Stack() == old(Stack())[..depth - 1] + [st];
    }

    /** The last line of a group: print or drop, and unnest(). */
    method Close(t: Option<Text>)
      requires Valid() && depth > 0
      modifies this`depth, this`output
      ensures Valid()
      ensures Stack() == Unifdef.Pop(old(Stack())) && output == old(output) + if t.Some? then [t.value] else []
    {
      Flush(t);
      depth := depth - 1;
      assert Stack() == old(Stack())[..depth];
    }

    /** The transition functions of a group's first line. The result tells whether the program goes on. */
    method Begin(f: Fn, l: Line, iocccok: bool) returns (ok: bool)
      requires Valid() && Begins(f)
      modifies this, ifstate
      ensures Valid()
      ensures Follows(old(Stack()), old(output), Apply(f, old(Stack()), l, iocccok), ok)
    {
      hide Written, Proper;
      ok := true;
      match f
      case Fdrop => ok := First(FalseTrailer, None);
      case Fpass => ok := First(PassMiddle, Some(Written(l)));
      case Ftrue => ok := First(TruePrefix, None);
      case Ffalse => ok := First(FalsePrefix, None);
      case Oiffy => if iocccok { ok := First(PassMiddle, Some(Written(l))); } else { ok := false; }
      case Oif => if iocccok { ok := First(PassMiddle, Some(Written(l))); } else { ok := false; }
      case Idrop => ok := First(FalseTrailer, None);
      case Itrue => ok := First(TruePrefix, None);
      case Ifalse => ok := First(FalsePrefix, None);
    }

    /** The transition functions of a group's later lines that drop the line as it is or print it. */
    method Pass(f: Fn, l: Line, iocccok: bool) returns (ok: bool)
      requires Valid() && Passes(f) && depth > 0
      modifies this, ifstate
      ensures Valid()
      ensures Follows(old(Stack()), old(output), Apply(f, old(Stack()), l, iocccok), ok)
    {
      hide Written, Proper, Set, Unifdef.Pop;
      ok := true;
      match f
      case Strue => Here(TruePrefix, None);
      case Sfalse => Here(FalsePrefix, None);
      case Selse => Here(TrueElse, None);
      case Pelif => Here(PassMiddle, Some(Written(l)));
      case Pelse => Here(PassElse, Some(Written(l)));
      case Pendif => Close(Some(Written(l)));
      case Dfalse => Here(FalseTrailer, None);
      case Delif => Here(FalseMiddle, None);
      case Delse => Here(FalseElse, None);
      case Dendif => Close(None);
      case Oelif => if iocccok { Here(PassMiddle, Some(Written(l))); } else { ok := false; }
    }

    /** The transition functions that modify the line. */
    method Modify(f: Fn, l: Line, iocccok: bool) returns (ok: bool)
      requires Valid() && Modifies(f) && depth > 0
      modifies this, ifstate
      ensures Valid()
      ensures Follows(old(Stack()), old(output), Apply(f, old(Stack()), l, iocccok), ok)
    {
      hide Proper, Set;
      ok := true;
      match f
      case Mpass => Here(PassMiddle, Some(TIf(l.cond)));
      case Mtrue => Here(TrueMiddle, Some(TElse));
      case Melif => Here(FalseTrailer, Some(TEndif));
      case Melse => Here(FalseElse, Some(TEndif));
    }

    /** A call through the table. */
    method Transition(f: Fn, l: Line, iocccok: bool) returns (ok: bool)
      requires Valid() && f != Done && (Passes(f) || Modifies(f) ==> depth > 0)
      modifies this, ifstate
      ensures Valid()
      ensures Follows(old(Stack()), old(output), Apply(f, old(Stack()), l, iocccok), ok)
    {
      hide Written, Proper, Set, Unifdef.Pop;
      ok := true;
      if Begins(f) {
        ok := Begin(f, l, iocccok);
      } else if Passes(f) {
        ok := Pass(f, l, iocccok);
      } else if Modifies(f) {
        ok := Modify(f, l, iocccok);
      } else if f == Print {
        Flush(Some(Written(l)));
      } else if f == Drop {
        Flush(None);
      } else {
        ok := false;
      }
    }

    /** The machine has done what the outcome says; after a failure its state does not matter. */
    ghost predicate Follows(stack: seq<Ifstate>, out: seq<Text>, r: Outcome, ok: bool)
      reads this, ifstate
      requires Valid()
    {
      && (ok <==> r.Go?)
      && (ok ==> Stack() == r.stack && output == out + if r.out.Some? then [r.out.value] else [])
    }

    /**
     The driver: it stops at the first error or at the end of the file. It ends in done() exactly when Run does,
     with the output Run gives.
     */
    method Process(lines: seq<Line>, iocccok: bool) returns (ok: bool)
      requires Valid() && Stack() == [] && output == []
      modifies this, ifstate
      ensures Valid()
      ensures ok <==> Run([], lines, iocccok).Some?
      ensures ok ==> output == Run([], lines, iocccok).value
    {
      hide Run, Apply, TransTable, Proper, Begins, Passes, Modifies;
      var n := 0;
      assert lines[0..] == lines;
      RunPrefix(output, Run([], lines, iocccok));
      while n < |lines|
        invariant Valid() && n <= |lines|
        invariant Run([], lines, iocccok) == Prefixed(output, Run(Stack(), lines[n..], iocccok))
      {
        var f := TransTable(ifstate[depth], lines[n].lt);
        OutsideNeedsNone(lines[n].lt);
        NeverDone(ifstate[depth], lines[n].lt);
        RunNext(Stack(), output, lines[n..], iocccok);
        var go := Transition(f, lines[n], iocccok);
        if !go {
          return false;
        }
        n := n + 1;
      }
      RunEnd(Stack(), output, lines[n..], iocccok);
      ok := EofEntry(ifstate[depth]) == Done;
    }
  }

  function Prefixed(out: seq<Text>, r: Option<seq<Text>>): Option<seq<Text>> {
    if r.Some? then Some(out + r.value) else None
  }

  lemma RunPrefix(out: seq<Text>, r: Option<seq<Text>>)
    requires out == []
    ensures Prefixed(out, r) == r
  {
    if r.Some? {
      assert [] + r.value == r.value;
    }
  }

  lemma RunEnd(stack: seq<Ifstate>, out: seq<Text>, lines: seq<Line>, iocccok: bool)
    requires lines == []
    ensures Prefixed(out, Run(stack, lines, iocccok)) == if EofEntry(Top(stack)) == Done then Some(out) else None
  {
    assert out + [] == out;
  }

  lemma RunNext(stack: seq<Ifstate>, out: seq<Text>, lines: seq<Line>, iocccok: bool)
    requires lines != []
    ensures var r := Apply(TransTable(Top(stack), lines[0].lt), stack, lines[0], iocccok);
            Prefixed(out, Run(stack, lines, iocccok)) ==
            if r.Go? then Prefixed(out + (if r.out.Some? then [r.out.value] else []), Run(r.stack, lines[1..], iocccok)) else None
  {
    hide TransTable, Apply;
    var r := Step(stack, lines[0], iocccok);
    if r.Go? && Run(r.stack, lines[1..], iocccok).Some? {
      var now, rest := if r.out.Some? then [r.out.value] else [], Run(r.stack, lines[1..], iocccok).value;
      assert out + (now + rest) == (out + now) + rest;
    }
  }
}
