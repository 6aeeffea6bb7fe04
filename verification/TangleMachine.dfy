/** The output routine's stack of positions, as a machine on values, and why it computes the recursive expansion. */
module TangleMachine {
  import opened Tangle

  /** A level of the stack: token `i` of text `repl` comes next. */
  datatype Frame = Frame(repl: nat, i: nat, section: nat)

  /** The next text of the same name, or the end of the chain. */
  function Link(defs: seq<Definition>, t: nat): nat
    requires 1 <= t <= |defs|
  {
    NextFrom(defs, defs[t - 1].name, t + 1, SECTION_FLAG)
  }

  predicate FrameOk(defs: seq<Definition>, f: Frame) {
    1 <= f.repl <= |defs| && f.i <= |defs[f.repl - 1].tokens|
  }

  /** One turn of the output routine with `f` on top of `below`: the levels it leaves. */
  function Turn(defs: seq<Definition>, below: seq<Frame>, f: Frame): seq<Frame>
    requires FrameOk(defs, f)
  {
    var tokens := defs[f.repl - 1].tokens;
    if f.i == |tokens| then
      if Link(defs, f.repl) < SECTION_FLAG then below + [Frame(Link(defs, f.repl), 0, f.section)] else below
    else
      var tok := tokens[f.i];
      var here := below + [Frame(f.repl, f.i + 1, SectionAfter(tok, f.section))];
      if Inserted(defs, tok) then here + [Frame(NextFrom(defs, tok.n, 1, 0), 0, 0)] else here
  }

  /** And what it writes. */
  function Written(defs: seq<Definition>, f: Frame): seq<Out>
    requires FrameOk(defs, f)
  {
    var tokens := defs[f.repl - 1].tokens;
    if f.i == |tokens| then Emit(End, f.section)
    else if Inserted(defs, tokens[f.i]) then []
    else Emit(tokens[f.i], f.section)
  }

  // ----- what is still to come -----

  /** All tokens the level will still go through, its chain included. */
  function Rest(defs: seq<Definition>, f: Frame): seq<Token>
    requires FrameOk(defs, f)
  {
    defs[f.repl - 1].tokens[f.i..] + [End] + BodyFrom(defs, defs[f.repl - 1].name, f.repl + 1)
  }

  /** What a level still means when `levels` more fit on the stack: the output to come from it, the turns it needs, and
      whether it nests no deeper than that. */
  datatype Meaning = Meaning(out: (nat, Frame) -> seq<Out>, work: (nat, Frame) -> nat, nests: (nat, Frame) -> bool)

  /** The meaning recursive expansion gives. */
  function Expanding(defs: seq<Definition>): Meaning {
    Meaning(
      (levels: nat, f: Frame) => if FrameOk(defs, f) then Expand(defs, levels, Rest(defs, f), f.section) else [],
      (levels: nat, f: Frame) => if FrameOk(defs, f) then Work(defs, levels, Rest(defs, f)) else 0,
      (levels: nat, f: Frame) => FrameOk(defs, f) && Nests(defs, levels, Rest(defs, f)))
  }

  /** How many levels fit on a stack of this height. */
  function Free(height: nat): nat {
    if height < STACK_SIZE then STACK_SIZE - height else 0
  }

  /** The output still to come: each level's, innermost first. */
  function Pending(m: Meaning, frames: seq<Frame>): seq<Out> {
    if frames == [] then []
    else m.out(Free(|frames|), frames[|frames| - 1]) + Pending(m, frames[..|frames| - 1])
  }

  function TotalWork(m: Meaning, frames: seq<Frame>): nat {
    if frames == [] then 0
    else m.work(Free(|frames|), frames[|frames| - 1]) + TotalWork(m, frames[..|frames| - 1])
  }

  /** No level nests deeper than the stack allows. */
  predicate AllNest(m: Meaning, frames: seq<Frame>) {
    frames != [] ==> m.nests(Free(|frames|), frames[|frames| - 1]) && AllNest(m, frames[..|frames| - 1])
  }

  // ----- the chains -----

  /** The texts of a name after index `k`, as the chain visits them. */
  lemma {:induction false} BodyIsChained(defs: seq<Definition>, p: nat, k: nat, none: nat)
    requires k >= 1 && (none == 0 || none > |defs|)
    ensures var t := NextFrom(defs, p, k, none);
      if t == none then BodyFrom(defs, p, k) == []
      else 1 <= t <= |defs| && defs[t - 1].name == p && BodyFrom(defs, p, k) == Rest(defs, Frame(t, 0, 0))
    decreases |defs| + 1 - k
  {
    if k <= |defs| && defs[k - 1].name != p {
      BodyIsChained(defs, p, k + 1, none);
    }
  }

  /** Every level has at least its end marker to go through. */
  lemma RestStep(defs: seq<Definition>, f: Frame)
    requires FrameOk(defs, f)
    ensures var tokens := defs[f.repl - 1].tokens;
      if f.i < |tokens| then Rest(defs, f) == [tokens[f.i]] + Rest(defs, f.(i := f.i + 1))
      else Rest(defs, f) == [End] + BodyFrom(defs, defs[f.repl - 1].name, f.repl + 1)
  {
  }

  // ----- one turn -----

  /** `f` writes `out` and goes on as `g`. */
  ghost predicate GoesOn(m: Meaning, l: nat, f: Frame, out: seq<Out>, g: Frame) {
    m.out(l, f) == out + m.out(l, g) && m.work(l, f) == 1 + m.work(l, g) && m.nests(l, f) == m.nests(l, g)
  }

  /** `f` enters `h`, one level up, and goes on as `g` afterwards; with no level left it nests too deep. */
  ghost predicate Enters(m: Meaning, l: nat, f: Frame, h: Frame, g: Frame) {
    if l == 0 then !m.nests(l, f)
    else
      && m.out(l, f) == m.out(l - 1, h) + m.out(l, g)
      && m.work(l, f) == 1 + m.work(l - 1, h) + m.work(l, g)
      && m.nests(l, f) == (m.nests(l - 1, h) && m.nests(l, g))
  }

  /** `f` writes `out` and is done. */
  ghost predicate Ends(m: Meaning, l: nat, f: Frame, out: seq<Out>) {
    m.out(l, f) == out && m.work(l, f) == 1 && m.nests(l, f)
  }

  /** The meaning fits what a turn does with this level. */
  ghost predicate Fits(m: Meaning, defs: seq<Definition>, l: nat, f: Frame)
    requires FrameOk(defs, f)
  {
    var tokens := defs[f.repl - 1].tokens;
    if f.i == |tokens| then
      if Link(defs, f.repl) < SECTION_FLAG then
        GoesOn(m, l, f, Emit(End, f.section), Frame(Link(defs, f.repl), 0, f.section))
      else Ends(m, l, f, Emit(End, f.section))
    else if Inserted(defs, tokens[f.i]) then
      Enters(m, l, f, Frame(NextFrom(defs, tokens[f.i].n, 1, 0), 0, 0), Frame(f.repl, f.i + 1, f.section))
    else
      GoesOn(m, l, f, Emit(tokens[f.i], f.section), Frame(f.repl, f.i + 1, SectionAfter(tokens[f.i], f.section)))
  }

  ghost predicate Lawful(m: Meaning, defs: seq<Definition>) {
    forall l: nat, f {:trigger Fits(m, defs, l, f)} :: FrameOk(defs, f) ==> Fits(m, defs, l, f)
  }

  // ----- recursive expansion fits -----

  lemma TokenUnfolds(defs: seq<Definition>, levels: nat, tok: Token, rest: seq<Token>, section: nat)
    requires !Inserted(defs, tok)
    ensures Expand(defs, levels, [tok] + rest, section)
      == Emit(tok, section) + Expand(defs, levels, rest, SectionAfter(tok, section))
    ensures Work(defs, levels, [tok] + rest) == 1 + Work(defs, levels, rest)
    ensures Nests(defs, levels, [tok] + rest) == Nests(defs, levels, rest)
  {
    assert ([tok] + rest)[1..] == rest;
  }

  lemma UseUnfolds(defs: seq<Definition>, levels: nat, tok: Token, rest: seq<Token>, section: nat)
    requires Inserted(defs, tok)
    ensures var body := BodyFrom(defs, tok.n, 1);
      if levels == 0 then !Nests(defs, levels, [tok] + rest)
      else
        && Expand(defs, levels, [tok] + rest, section)
          == Expand(defs, levels - 1, body, 0) + Expand(defs, levels, rest, section)
        && Work(defs, levels, [tok] + rest) == 1 + Work(defs, levels - 1, body) + Work(defs, levels, rest)
        && Nests(defs, levels, [tok] + rest) == (Nests(defs, levels - 1, body) && Nests(defs, levels, rest))
  {
    assert ([tok] + rest)[1..] == rest;
  }

  /** What a level means in terms of the tokens it will still go through. */
  lemma MeaningOf(defs: seq<Definition>, l: nat, f: Frame, rest: seq<Token>)
    requires FrameOk(defs, f) && Rest(defs, f) == rest
    ensures var m := Expanding(defs);
      && m.out(l, f) == Expand(defs, l, rest, f.section)
      && m.work(l, f) == Work(defs, l, rest)
      && m.nests(l, f) == Nests(defs, l, rest)
  {
  }

  lemma EmitStep(defs: seq<Definition>, l: nat, f: Frame)
    requires FrameOk(defs, f) && f.i < |defs[f.repl - 1].tokens| && !Inserted(defs, defs[f.repl - 1].tokens[f.i])
    ensures var tok := defs[f.repl - 1].tokens[f.i];
      GoesOn(Expanding(defs), l, f, Emit(tok, f.section), Frame(f.repl, f.i + 1, SectionAfter(tok, f.section)))
  {
    var tok := defs[f.repl - 1].tokens[f.i];
    var g := Frame(f.repl, f.i + 1, SectionAfter(tok, f.section));
    var rest := Rest(defs, g);
    RestStep(defs, f);
    MeaningOf(defs, l, f, [tok] + rest);
    MeaningOf(defs, l, g, rest);
    TokenUnfolds(defs, l, tok, rest, f.section);
  }

  /** `f` is at a use, and `h` is where the used name's body begins. */
  lemma UseStep(defs: seq<Definition>, l: nat, f: Frame, h: Frame)
    requires FrameOk(defs, f) && f.i < |defs[f.repl - 1].tokens| && Inserted(defs, defs[f.repl - 1].tokens[f.i])
    requires FrameOk(defs, h) && h.section == 0 && Rest(defs, h) == BodyFrom(defs, defs[f.repl - 1].tokens[f.i].n, 1)
    ensures Enters(Expanding(defs), l, f, h, Frame(f.repl, f.i + 1, f.section))
  {
    var tok := defs[f.repl - 1].tokens[f.i];
    var g := Frame(f.repl, f.i + 1, f.section);
    RestStep(defs, f);
    UseMeans(defs, l, f, g, h, tok, Rest(defs, g), Rest(defs, h));
  }

  lemma UseMeans(
    defs: seq<Definition>, l: nat, f: Frame, g: Frame, h: Frame, tok: Token, rest: seq<Token>, body: seq<Token>)
    requires FrameOk(defs, f) && FrameOk(defs, g) && FrameOk(defs, h) && f.section == g.section && h.section == 0
    requires Rest(defs, f) == [tok] + rest && Rest(defs, g) == rest && Rest(defs, h) == body
    requires Inserted(defs, tok) && body == BodyFrom(defs, tok.n, 1)
    ensures Enters(Expanding(defs), l, f, h, g)
  {
    MeaningOf(defs, l, f, [tok] + rest);
    if l == 0 {
      UseUnfolds(defs, l, tok, rest, f.section);
    } else {
      var m := Expanding(defs);
      MeaningOf(defs, l, g, rest);
      MeaningOf(defs, l - 1, h, body);
      assert m.out(l, f) == m.out(l - 1, h) + m.out(l, g) by {
        UseUnfolds(defs, l, tok, rest, f.section);
      }
      assert m.work(l, f) == 1 + m.work(l - 1, h) + m.work(l, g) by {
        UseUnfolds(defs, l, tok, rest, f.section);
      }
      assert m.nests(l, f) == (m.nests(l - 1, h) && m.nests(l, g)) by {
        UseUnfolds(defs, l, tok, rest, f.section);
      }
    }
  }

  lemma BodyStart(defs: seq<Definition>, p: nat)
    requires Defined(defs, p)
    ensures var h := Frame(NextFrom(defs, p, 1, 0), 0, 0); FrameOk(defs, h) && Rest(defs, h) == BodyFrom(defs, p, 1)
  {
    BodyIsChained(defs, p, 1, 0);
  }

  /** At the end of a text comes the next text of the chain, if there is one. */
  lemma EndStep(defs: seq<Definition>, l: nat, f: Frame)
    requires FrameOk(defs, f) && f.i == |defs[f.repl - 1].tokens| && |defs| < SECTION_FLAG
    ensures var next := Link(defs, f.repl); var m := Expanding(defs);
      if next < SECTION_FLAG then GoesOn(m, l, f, Emit(End, f.section), Frame(next, 0, f.section))
      else Ends(m, l, f, Emit(End, f.section))
  {
    var p := defs[f.repl - 1].name;
    var rest, next := BodyFrom(defs, p, f.repl + 1), Link(defs, f.repl);
    RestStep(defs, f);
    MeaningOf(defs, l, f, [End] + rest);
    TokenUnfolds(defs, l, End, rest, f.section);
    BodyIsChained(defs, p, f.repl + 1, SECTION_FLAG);
    if next < SECTION_FLAG {
      assert Rest(defs, Frame(next, 0, f.section)) == Rest(defs, Frame(next, 0, 0));
      MeaningOf(defs, l, Frame(next, 0, f.section), rest);
    }
  }

  /** The recursive expansion of any program fits every turn of the stack machine. */
  lemma ExpansionIsLawful(defs: seq<Definition>)
    requires |defs| < SECTION_FLAG
    ensures Lawful(Expanding(defs), defs)
  {
    forall l: nat, f | FrameOk(defs, f)
      ensures Fits(Expanding(defs), defs, l, f)
    {
      if f.i == |defs[f.repl - 1].tokens| {
        EndStep(defs, l, f);
      } else if Inserted(defs, defs[f.repl - 1].tokens[f.i]) {
        var p := defs[f.repl - 1].tokens[f.i].n;
        BodyStart(defs, p);
        UseStep(defs, l, f, Frame(NextFrom(defs, p, 1, 0), 0, 0));
      } else {
        EmitStep(defs, l, f);
      }
    }
  }

  // ----- one turn -----

  /** The measures of a stack with one more level. */
  lemma Stacked(m: Meaning, below: seq<Frame>, f: Frame)
    ensures Pending(m, below + [f]) == m.out(Free(|below| + 1), f) + Pending(m, below)
    ensures TotalWork(m, below + [f]) == m.work(Free(|below| + 1), f) + TotalWork(m, below)
    ensures AllNest(m, below + [f]) == (m.nests(Free(|below| + 1), f) && AllNest(m, below))
  {
    var frames := below + [f];
    assert frames[..|frames| - 1] == below && frames[|frames| - 1] == f;
  }

  /** Writing `out` and going on with `next` gives what `now` still had to write, one turn sooner, and nests too deep
      exactly if `now` did. */
  ghost predicate Preserved(m: Meaning, now: seq<Frame>, next: seq<Frame>, out: seq<Out>) {
    && out + Pending(m, next) == Pending(m, now)
    && TotalWork(m, next) + 1 == TotalWork(m, now)
    && AllNest(m, now) == AllNest(m, next)
  }

  lemma GoingOn(m: Meaning, below: seq<Frame>, f: Frame, out: seq<Out>, g: Frame)
    requires GoesOn(m, Free(|below| + 1), f, out, g)
    ensures Preserved(m, below + [f], below + [g], out)
  {
    Stacked(m, below, f);
    Stacked(m, below, g);
  }

  lemma Entering(m: Meaning, below: seq<Frame>, f: Frame, h: Frame, g: Frame)
    requires Enters(m, Free(|below| + 1), f, h, g) && |below| + 1 < STACK_SIZE
    ensures Preserved(m, below + [f], below + [g] + [h], [])
  {
    Stacked(m, below, f);
    Stacked(m, below, g);
    Stacked(m, below + [g], h);
  }

  lemma Ending(m: Meaning, below: seq<Frame>, f: Frame, out: seq<Out>)
    requires Ends(m, Free(|below| + 1), f, out)
    ensures Preserved(m, below + [f], below, out)
  {
    Stacked(m, below, f);
  }

  /** Every turn, for any meaning that fits: it keeps the output to come, or overflows because that nests too deep. */
  lemma TurnKeeps(m: Meaning, defs: seq<Definition>, below: seq<Frame>, f: Frame)
    requires FrameOk(defs, f) && Lawful(m, defs) && |below| < STACK_SIZE
    ensures var next := Turn(defs, below, f); var out := Written(defs, f);
      if |next| > STACK_SIZE then out == [] && !AllNest(m, below + [f])
      else Preserved(m, below + [f], next, out)
  {
    var tokens := defs[f.repl - 1].tokens;
    var l := Free(|below| + 1);
    assert Fits(m, defs, l, f);
    if f.i == |tokens| {
      if Link(defs, f.repl) < SECTION_FLAG {
        GoingOn(m, below, f, Emit(End, f.section), Frame(Link(defs, f.repl), 0, f.section));
      } else {
        Ending(m, below, f, Emit(End, f.section));
      }
    } else if Inserted(defs, tokens[f.i]) {
      if |below| + 1 < STACK_SIZE {
        Entering(m, below, f, Frame(NextFrom(defs, tokens[f.i].n, 1, 0), 0, 0), Frame(f.repl, f.i + 1, f.section));
      } else {
        Stacked(m, below, f);
      }
    } else {
      GoingOn(m, below, f, Emit(tokens[f.i], f.section), Frame(f.repl, f.i + 1, SectionAfter(tokens[f.i], f.section)));
    }
  }

  // ----- whole runs -----

  /** Where a run from `start` has got to. */
  ghost predicate Progress(m: Meaning, start: seq<Frame>, frames: seq<Frame>, written: seq<Out>) {
    && written + Pending(m, frames) == Pending(m, start)
    && AllNest(m, frames) == AllNest(m, start)
  }

  /** The run has overflowed, with a part of the output written. */
  ghost predicate Stopped(m: Meaning, start: seq<Frame>, written: seq<Out>) {
    written <= Pending(m, start) && !AllNest(m, start)
  }

  lemma ProgressMade(m: Meaning, start: seq<Frame>, now: seq<Frame>, next: seq<Frame>, written: seq<Out>, out: seq<Out>)
    requires Progress(m, start, now, written) && Preserved(m, now, next, out)
    ensures Progress(m, start, next, written + out)
  {
    assert written + out + Pending(m, next) == written + (out + Pending(m, next));
  }

  /** One turn of a run. */
  lemma TurnMade(m: Meaning, defs: seq<Definition>, start: seq<Frame>, below: seq<Frame>, f: Frame, written: seq<Out>)
    requires FrameOk(defs, f) && Lawful(m, defs) && |below| < STACK_SIZE && Progress(m, start, below + [f], written)
    ensures var next := Turn(defs, below, f); var now := written + Written(defs, f);
      if |next| > STACK_SIZE then Stopped(m, start, now)
      else Progress(m, start, next, now) && TotalWork(m, next) < TotalWork(m, below + [f])
  {
    var next, out := Turn(defs, below, f), Written(defs, f);
    TurnKeeps(m, defs, below, f);
    if |next| <= STACK_SIZE {
      ProgressMade(m, start, below + [f], next, written, out);
    } else {
      assert written + out == written;
    }
  }

  lemma NothingLeft(m: Meaning, start: seq<Frame>, written: seq<Out>)
    ensures Progress(m, start, start, [])
    ensures Progress(m, start, [], written) ==> written == Pending(m, start) && AllNest(m, start)
  {
  }

  /** The stack a run for `p` starts with. */
  function FirstFrames(defs: seq<Definition>, p: nat, section: nat): seq<Frame>
    requires Defined(defs, p)
  {
    [Frame(NextFrom(defs, p, 1, 0), 0, section)]
  }

  /** A run from there has the recursive expansion to write, and fits on the stack if that nests no deeper. */
  lemma FirstPending(defs: seq<Definition>, p: nat, section: nat)
    requires Defined(defs, p)
    ensures var m := Expanding(defs); var start := FirstFrames(defs, p, section); var body := BodyFrom(defs, p, 1);
      && Pending(m, start) == Expand(defs, STACK_SIZE - 1, body, section)
      && AllNest(m, start) == Nests(defs, STACK_SIZE - 1, body)
  {
    var f := Frame(NextFrom(defs, p, 1, 0), 0, section);
    BodyIsChained(defs, p, 1, 0);
    assert Rest(defs, f) == Rest(defs, Frame(NextFrom(defs, p, 1, 0), 0, 0));
    MeaningOf(defs, STACK_SIZE - 1, f, BodyFrom(defs, p, 1));
    Stacked(Expanding(defs), [], f);
    assert [] + [f] == FirstFrames(defs, p, section);
  }
}
