/**
 The template preview's renderer: a flat pass over tokens with a stack of frames,
 against the meaning of the template as a tree. Conditions `C` and paths `P` are
 whatever the tokenizer found; `holds` and `show` evaluate them.
 */
module Preview {
  import opened Options

  datatype Token<C, P> =
    | Text(s: string)
    | If(c: C)
    | ElseIf(c: C)
    | Else
    | End
    | Block               // with and range, which are not evaluated
    | Path(p: P)
    | Other               // any other action

  datatype Frame = Frame(emit: bool, parentEmit: bool, taken: bool)

  datatype Machine = Machine(stack: seq<Frame>, out: string)

  const INITIAL := Machine([Frame(true, true, true)], "")

  function Top(m: Machine): Frame
    requires m.stack != []
  {
    m.stack[|m.stack| - 1]
  }

  function SetTop(m: Machine, f: Frame): Machine
    requires m.stack != []
  {
    m.(stack := m.stack[..|m.stack| - 1] + [f])
  }

  function Push(m: Machine, f: Frame): Machine { m.(stack := m.stack + [f]) }

  function Emit(m: Machine, s: string): Machine
    requires m.stack != []
  {
    if Top(m).emit then m.(out := m.out + s) else m
  }

  /** An else-if or else branch of frame `f`, whose condition evaluates to `b`. */
  function Branch(f: Frame, b: bool): Frame {
    var take := f.parentEmit && !f.taken && b;
    f.(emit := take, taken := f.taken || take)
  }

  function Step<C, P>(m: Machine, t: Token<C, P>, holds: C -> bool, show: P -> string): (r: Machine)
    requires m.stack != []
    ensures r.stack != []
    ensures m.out <= r.out
  {
    match t
    case Text(s) => Emit(m, s)
    case End => if |m.stack| > 1 then m.(stack := m.stack[..|m.stack| - 1]) else m
    case ElseIf(c) => SetTop(m, Branch(Top(m), holds(c)))
    case Else => SetTop(m, Branch(Top(m), true))
    case If(c) =>
      var parent := Top(m).emit;
      var take := parent && holds(c);
      Push(m, Frame(take, parent, take))
    case Block => Push(m, Frame(false, Top(m).emit, false))
    case Path(p) => Emit(m, show(p))
    case Other => m
  }

  /** For any tokens, nested or not, the stack never runs empty and output is only appended. */
  function Exec<C, P>(m: Machine, ts: seq<Token<C, P>>, holds: C -> bool, show: P -> string): (r: Machine)
    requires m.stack != []
    ensures r.stack != []
    ensures m.out <= r.out
  {
    if ts == [] then m
    else Step(Exec(m, ts[..|ts| - 1], holds, show), ts[|ts| - 1], holds, show)
  }

  method Render<C, P>(ts: seq<Token<C, P>>, holds: C -> bool, show: P -> string) returns (out: string)
    ensures out == Exec(INITIAL, ts, holds, show).out
    ensures forall t: Tmpl<C, P> {:trigger Flat(t)} :: ts == Flat(t) ==> out == Mean(t, holds, show)
  {
    out := "";
    var stack := [Frame(true, true, true)];
    for i := 0 to |ts|
      invariant stack != [] && Machine(stack, out) == Exec(INITIAL, ts[..i], holds, show)
    {
      assert ts[..i + 1][..i] == ts[..i];
      var top := |stack| - 1;
      match ts[i] {
        case Text(s) =>
          if stack[top].emit { out := out + s; }
        case End =>
          if |stack| > 1 { stack := stack[..top]; }
        case ElseIf(c) =>
          var f := stack[top];
          var take := f.parentEmit && !f.taken && holds(c);
          stack := stack[..top] + [f.(emit := take, taken := f.taken || take)];
        case Else =>
          var f := stack[top];
          var emit := f.parentEmit && !f.taken;
          stack := stack[..top] + [f.(emit := emit, taken := f.taken || emit)];
        case If(c) =>
          var parent := stack[top].emit;
          var take := parent && holds(c);
          stack := stack + [Frame(take, parent, take)];
        case Block =>
          stack := stack + [Frame(false, stack[top].emit, false)];
        case Path(p) =>
          if stack[top].emit { out := out + show(p); }
        case Other =>
      }
    }
    assert ts[..|ts|] == ts;
    forall t: Tmpl<C, P> {:trigger Flat(t)} | ts == Flat(t) ensures out == Mean(t, holds, show) {
      TemplateMeaning(t, INITIAL, holds, show);
    }
  }

  // ----- templates as trees -----

  datatype Tmpl<C, P> = Nil | Cons(head: Item<C, P>, tail: Tmpl<C, P>)

  /** A block opened by `with` or `range` has no condition that could hold. */
  datatype Item<C, P> =
    | Lit(s: string)
    | Var(p: P)
    | Noise
    | Cond(guard: Option<C>, body: Tmpl<C, P>, rest: Chain<C, P>)

  /** What follows the first branch, up to and including `end`. */
  datatype Chain<C, P> =
    | Close
    | Elif(c: C, body: Tmpl<C, P>, rest: Chain<C, P>)
    | Otherwise(body: Tmpl<C, P>)

  function Flat<C, P>(t: Tmpl<C, P>): seq<Token<C, P>> {
    match t
    case Nil => []
    case Cons(head, tail) => FlatItem(head) + Flat(tail)
  }

  function FlatItem<C, P>(x: Item<C, P>): seq<Token<C, P>> {
    match x
    case Lit(s) => [Text(s)]
    case Var(p) => [Path(p)]
    case Noise => [Other]
    case Cond(guard, body, rest) => [Opening(guard)] + Flat(body) + FlatChain(rest)
  }

  function Opening<C, P>(guard: Option<C>): Token<C, P> {
    match guard
    case Some(c) => If(c)
    case None => Block
  }

  function FlatChain<C, P>(r: Chain<C, P>): seq<Token<C, P>> {
    match r
    case Close => [End]
    case Elif(c, body, rest) => [ElseIf(c)] + Flat(body) + FlatChain(rest)
    case Otherwise(body) => [Else] + Flat(body) + [End]
  }

  /** The text of a template: each block contributes its first branch whose condition holds. */
  function Mean<C, P>(t: Tmpl<C, P>, holds: C -> bool, show: P -> string): string {
    match t
    case Nil => ""
    case Cons(head, tail) => MeanItem(head, holds, show) + Mean(tail, holds, show)
  }

  function MeanItem<C, P>(x: Item<C, P>, holds: C -> bool, show: P -> string): string {
    match x
    case Lit(s) => s
    case Var(p) => show(p)
    case Noise => ""
    case Cond(guard, body, rest) =>
      if guard.Some? && holds(guard.value) then Mean(body, holds, show) else MeanChain(rest, holds, show)
  }

  function MeanChain<C, P>(r: Chain<C, P>, holds: C -> bool, show: P -> string): string {
    match r
    case Close => ""
    case Elif(c, body, rest) => if holds(c) then Mean(body, holds, show) else MeanChain(rest, holds, show)
    case Otherwise(body) => Mean(body, holds, show)
  }

  lemma ExecOne<C, P>(m: Machine, t: Token<C, P>, holds: C -> bool, show: P -> string)
    requires m.stack != []
    ensures Exec(m, [t], holds, show) == Step(m, t, holds, show)
  {
    assert [t][..0] == [];
  }

  lemma {:induction false} ExecAppend<C, P>(m: Machine, a: seq<Token<C, P>>, b: seq<Token<C, P>>,
                                            holds: C -> bool, show: P -> string)
    requires m.stack != []
    ensures Exec(m, a + b, holds, show) == Exec(Exec(m, a, holds, show), b, holds, show)
  {
    if b == [] {
      assert a + b == a;
    } else {
      var n := |b| - 1;
      ExecAppend(m, a, b[..n], holds, show);
      assert (a + b)[..|a + b| - 1] == a + b[..n];
    }
  }

  lemma ExecThree<C, P>(m: Machine, t: Token<C, P>, b: seq<Token<C, P>>, c: seq<Token<C, P>>,
                        holds: C -> bool, show: P -> string)
    requires m.stack != []
    ensures Exec(m, [t] + b + c, holds, show)
            == Exec(Exec(Step(m, t, holds, show), b, holds, show), c, holds, show)
  {
    ExecAppend(m, [t] + b, c, holds, show);
    ExecAppend(m, [t], b, holds, show);
    ExecOne(m, t, holds, show);
  }

  /**
   For every tree, context and surrounding state: running the flattened tokens adds
   exactly the tree's text if the surroundings emit, nothing if not, and leaves the
   stack as it was.
   */
  lemma {:induction false} TemplateMeaning<C, P>(t: Tmpl<C, P>, m: Machine, holds: C -> bool, show: P -> string)
    requires m.stack != []
    ensures Exec(m, Flat(t), holds, show) == Emit(m, Mean(t, holds, show))
    decreases t
  {
    match t {
      case Nil =>
        assert m.out + "" == m.out;
      case Cons(head, tail) =>
        ItemMeaning(head, m, holds, show);
        TemplateMeaning(tail, Emit(m, MeanItem(head, holds, show)), holds, show);
        InTurn(m, FlatItem(head), Flat(tail), MeanItem(head, holds, show), Mean(tail, holds, show), holds, show);
    }
  }

  /** Two pieces of template, one after the other. */
  lemma InTurn<C, P>(m: Machine, a: seq<Token<C, P>>, b: seq<Token<C, P>>, s: string, t: string,
                     holds: C -> bool, show: P -> string)
    requires m.stack != []
    requires Exec(m, a, holds, show) == Emit(m, s)
    requires Exec(Emit(m, s), b, holds, show) == Emit(Emit(m, s), t)
    ensures Exec(m, a + b, holds, show) == Emit(m, s + t)
  {
    ExecAppend(m, a, b, holds, show);
    EmitTwice(m, s, t);
  }

  lemma EmitTwice(m: Machine, s: string, t: string)
    requires m.stack != []
    ensures Emit(Emit(m, s), t) == Emit(m, s + t)
  {
    assert m.out + (s + t) == (m.out + s) + t;
  }

  lemma {:induction false} ItemMeaning<C, P>(x: Item<C, P>, m: Machine, holds: C -> bool, show: P -> string)
    requires m.stack != []
    ensures Exec(m, FlatItem(x), holds, show) == Emit(m, MeanItem(x, holds, show))
    decreases x
  {
    match x {
      case Lit(s) => ExecOne(m, Text(s), holds, show);
      case Var(p) => ExecOne(m, Path(p), holds, show);
      case Noise =>
        ExecOne(m, Other, holds, show);
        assert m.out + "" == m.out;
      case Cond(guard, body, rest) =>
        var open: Token<C, P> := Opening(guard);
        var m1 := Step(m, open, holds, show);
        var m2 := Emit(m1, Mean(body, holds, show));
        TemplateMeaning(body, m1, holds, show);
        ChainMeaning(rest, m.stack, Top(m1), m2.out, holds, show);
        BlockRuns(m, open, Flat(body), FlatChain(rest),
                  Mean(body, holds, show), MeanChain(rest, holds, show), holds, show);
    }
  }

  /** A block, given what its body and its remaining branches do. */
  lemma BlockRuns<C, P>(m: Machine, open: Token<C, P>, body: seq<Token<C, P>>, rest: seq<Token<C, P>>,
                        s: string, t: string, holds: C -> bool, show: P -> string)
    requires m.stack != [] && (open.If? || open.Block?)
    requires var m1 := Step(m, open, holds, show);
             && Exec(m1, body, holds, show) == Emit(m1, s)
             && Exec(Machine(m.stack + [Top(m1)], Emit(m1, s).out), rest, holds, show)
                == Machine(m.stack,
                           if Top(m1).parentEmit && !Top(m1).taken then Emit(m1, s).out + t else Emit(m1, s).out)
    ensures Exec(m, [open] + body + rest, holds, show)
            == Emit(m, if open.If? && holds(open.c) then s else t)
  {
    ExecThree(m, open, body, rest, holds, show);
    var m1 := Step(m, open, holds, show);
    assert Emit(m1, s).stack == m.stack + [Top(m1)];
  }

  lemma {:induction false} ChainMeaning<C, P>(r: Chain<C, P>, base: seq<Frame>, f: Frame, out: string,
                                              holds: C -> bool, show: P -> string)
    requires base != []
    ensures Exec(Machine(base + [f], out), FlatChain(r), holds, show)
            == Machine(base, if f.parentEmit && !f.taken then out + MeanChain(r, holds, show) else out)
    decreases r
  {
    var m := Machine(base + [f], out);
    assert out + "" == out;
    match r {
      case Close =>
        PopTop(base, f, out, holds, show);
      case Elif(c, body, rest) =>
        var g := Branch(f, holds(c));
        var m1 := Machine(base + [g], out);
        var m2 := Emit(m1, Mean(body, holds, show));
        TemplateMeaning(body, m1, holds, show);
        ChainMeaning(rest, base, g, m2.out, holds, show);
        ExecThree(m, ElseIf(c), Flat(body), FlatChain(rest), holds, show);
        Switch(base, f, out, ElseIf(c), holds, show);
      case Otherwise(body) =>
        var g := Branch(f, true);
        var m1 := Machine(base + [g], out);
        TemplateMeaning(body, m1, holds, show);
        ExecThree(m, Else, Flat(body), [End], holds, show);
        Switch(base, f, out, Else, holds, show);
        PopTop(base, g, Emit(m1, Mean(body, holds, show)).out, holds, show);
    }
  }

  lemma Switch<C, P>(base: seq<Frame>, f: Frame, out: string, t: Token<C, P>, holds: C -> bool, show: P -> string)
    requires t.ElseIf? || t.Else?
    ensures Step(Machine(base + [f], out), t, holds, show)
            == Machine(base + [Branch(f, if t.ElseIf? then holds(t.c) else true)], out)
  {
    assert (base + [f])[..|base|] == base;
  }

  lemma PopTop<C, P>(base: seq<Frame>, f: Frame, out: string, holds: C -> bool, show: P -> string)
    requires base != []
    ensures Exec<C, P>(Machine(base + [f], out), [End], holds, show) == Machine(base, out)
  {
    ExecOne<C, P>(Machine(base + [f], out), End, holds, show);
    assert (base + [f])[..|base|] == base;
  }

  // ----- any tokens at all -----

  /** A frame emits only inside an emitting frame, and only a branch that it has taken. */
  ghost predicate WellStacked(s: seq<Frame>) {
    && s != [] && s[0].parentEmit && s[0].taken
    && (forall i :: 0 <= i < |s| ==> (s[i].emit ==> s[i].taken && s[i].parentEmit))
    && (forall i, j :: 0 <= i < |s| && j == i + 1 < |s| ==> s[j].parentEmit == s[i].emit)
  }

  /** The frames together with the number of branches each has emitted since its push. */
  datatype Counted = Counted(m: Machine, branches: seq<nat>)

  function CountedStep<C, P>(x: Counted, t: Token<C, P>, holds: C -> bool, show: P -> string): Counted
    requires x.m.stack != [] && |x.branches| == |x.m.stack|
  {
    var m := Step(x.m, t, holds, show);
    var n := |x.branches| - 1;
    var now := if Top(m).emit then 1 else 0;
    match t
    case If(_) => Counted(m, x.branches + [now])
    case Block => Counted(m, x.branches + [now])
    case ElseIf(_) => Counted(m, x.branches[n := x.branches[n] + now])
    case Else => Counted(m, x.branches[n := x.branches[n] + now])
    case End => Counted(m, if n > 0 then x.branches[..n] else x.branches)
    case _ => Counted(m, x.branches)
  }

  /** One branch at most, and one exactly if the frame has taken it. */
  ghost predicate OneBranchEach(x: Counted) {
    && |x.branches| == |x.m.stack| && WellStacked(x.m.stack)
    && forall i :: 0 <= i < |x.branches| ==> x.branches[i] == if x.m.stack[i].taken then 1 else 0
  }

  lemma CountedKeeps<C, P>(x: Counted, t: Token<C, P>, holds: C -> bool, show: P -> string)
    requires OneBranchEach(x)
    ensures OneBranchEach(CountedStep(x, t, holds, show))
    ensures CountedStep(x, t, holds, show).m == Step(x.m, t, holds, show)
  {
  }

  ghost function CountedExec<C, P>(ts: seq<Token<C, P>>, holds: C -> bool, show: P -> string): (x: Counted)
    ensures OneBranchEach(x)
  {
    if ts == [] then Counted(INITIAL, [1])
    else
      var x := CountedExec(ts[..|ts| - 1], holds, show);
      CountedKeeps(x, ts[|ts| - 1], holds, show);
      CountedStep(x, ts[|ts| - 1], holds, show)
  }

  /**
   For any token list, however ill-nested: every frame's record of its surroundings
   matches the frame below it, and no frame ever emits two of its branches.
   */
  lemma {:induction false} AnyTokensStayStacked<C, P>(ts: seq<Token<C, P>>, holds: C -> bool, show: P -> string)
    ensures var m := Exec(INITIAL, ts, holds, show);
            && WellStacked(m.stack) && CountedExec(ts, holds, show).m == m
            && forall i :: 0 <= i < |m.stack| ==> CountedExec(ts, holds, show).branches[i] <= 1
  {
    if ts != [] {
      AnyTokensStayStacked(ts[..|ts| - 1], holds, show);
      CountedKeeps(CountedExec(ts[..|ts| - 1], holds, show), ts[|ts| - 1], holds, show);
    }
  }

  /** No frame emits. */
  ghost predicate Muted(s: seq<Frame>) {
    WellStacked(s) && forall i :: 0 <= i < |s| ==> !s[i].emit
  }

  lemma MutedStep<C, P>(m: Machine, t: Token<C, P>, holds: C -> bool, show: P -> string)
    requires Muted(m.stack)
    ensures Muted(Step(m, t, holds, show).stack) && Step(m, t, holds, show).out == m.out
  {
    var n := |m.stack| - 1;
    assert n > 0 ==> m.stack[n].parentEmit == m.stack[n - 1].emit;
    assert forall b :: !Branch(m.stack[n], b).emit;
  }

  /** Once the bottom frame is off, it and everything above it stay off: output ends there. */
  lemma {:induction false} MutedForGood<C, P>(m: Machine, ts: seq<Token<C, P>>, holds: C -> bool, show: P -> string)
    requires Muted(m.stack)
    ensures Muted(Exec(m, ts, holds, show).stack) && Exec(m, ts, holds, show).out == m.out
  {
    if ts != [] {
      MutedForGood(m, ts[..|ts| - 1], holds, show);
      MutedStep(Exec(m, ts[..|ts| - 1], holds, show), ts[|ts| - 1], holds, show);
    }
  }

  /** A stray `else` or `else if` outside every block silences all that follows it. */
  lemma StrayElseSilences<C, P>(before: seq<Token<C, P>>, stray: Token<C, P>, after: seq<Token<C, P>>,
                                holds: C -> bool, show: P -> string)
    requires stray.Else? || stray.ElseIf?
    requires |Exec(INITIAL, before, holds, show).stack| == 1
    ensures Exec(INITIAL, [stray] + after, holds, show).out == ""
    ensures Exec(INITIAL, before + [stray] + after, holds, show).out == Exec(INITIAL, before, holds, show).out
  {
    AnyTokensStayStacked(before, holds, show);
    var m := Exec(INITIAL, before, holds, show);
    ExecAppend(INITIAL, before + [stray], after, holds, show);
    ExecAppend(INITIAL, before, [stray], holds, show);
    ExecOne(m, stray, holds, show);
    MutedForGood(Step(m, stray, holds, show), after, holds, show);
    ExecAppend(INITIAL, [stray], after, holds, show);
    ExecOne(INITIAL, stray, holds, show);
    MutedForGood(Step(INITIAL, stray, holds, show), after, holds, show);
  }

  /** A stray `end` outside every block is ignored. */
  lemma StrayEndIsIgnored<C, P>(before: seq<Token<C, P>>, after: seq<Token<C, P>>, holds: C -> bool, show: P -> string)
    requires |Exec(INITIAL, before, holds, show).stack| == 1
    ensures Exec(INITIAL, before + [End] + after, holds, show) == Exec(INITIAL, before + after, holds, show)
  {
    var m, end := Exec(INITIAL, before, holds, show), [End];
    ExecAppend(INITIAL, before + end, after, holds, show);
    ExecAppend(INITIAL, before, end, holds, show);
    ExecOne(m, End, holds, show);
    ExecAppend(INITIAL, before, after, holds, show);
  }
}
