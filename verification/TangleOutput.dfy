/** The output routine as it runs: byte positions in token memory and an explicit stack of them. */
module TangleOutput {
  import opened Collections
  import opened Tangle
  import opened TangleMachine

  const MAX_NAMES: nat := 4000

  /** What phase one leaves behind: packed tokens, where each text starts and which one follows it, and each name's
      first text (0 when it has none). Text 0 is empty and heads the chain of the unnamed program. */
  datatype Memory = Memory(bytes: seq<Byte>, starts: seq<nat>, links: seq<nat>, equiv: seq<nat>)

  predicate NamesOk(tokens: seq<Token>) {
    forall tok :: tok in tokens && tok.Ref? ==> tok.n < MAX_NAMES
  }

  predicate HoldsText(m: Memory, t: nat, tokens: seq<Token>) {
    && t + 1 < |m.starts| && m.starts[t] <= m.starts[t + 1] <= |m.bytes|
    && Stored(tokens, false) && NamesOk(tokens)
    && m.bytes[m.starts[t]..m.starts[t + 1]] == PackAll(tokens, false)
  }

  predicate HoldsDefinition(m: Memory, defs: seq<Definition>, t: nat)
    requires 1 <= t <= |defs| && |m.links| == |defs| + 1
  {
    HoldsText(m, t, defs[t - 1].tokens) && m.links[t] == Link(defs, t)
  }

  /** A name leads to its first text; text 0 leads to that of the unnamed program. */
  predicate HoldsName(m: Memory, defs: seq<Definition>, p: nat)
    requires p < |m.equiv| && |m.links| > 0
  {
    (if p == 0 then m.links[0] else m.equiv[p]) == NextFrom(defs, p, 1, 0)
  }

  /** The memory holds exactly this program. */
  ghost predicate Represents(m: Memory, defs: seq<Definition>) {
    && |defs| < SECTION_FLAG && |m.starts| == |defs| + 2 && |m.links| == |defs| + 1 && |m.equiv| == MAX_NAMES
    && (forall t :: 1 <= t <= |defs| ==> HoldsDefinition(m, defs, t))
    && (forall p: nat :: p < MAX_NAMES ==> HoldsName(m, defs, p))
    && m.equiv[0] == 0
  }

  datatype OutputState = OutputState(end: nat, byte: nat, repl: nat, section: nat)

  predicate Holds(bytes: seq<Byte>, tokens: seq<Token>, verbatim: bool) {
    Stored(tokens, verbatim) && bytes == PackAll(tokens, verbatim)
  }

  /** The bytes from the current position on are the tokens from the frame's position on. */
  ghost predicate At(m: Memory, defs: seq<Definition>, s: OutputState, f: Frame, verbatim: bool) {
    && FrameOk(defs, f) && s.repl == f.repl && s.section == f.section
    && s.byte <= s.end <= |m.bytes| && Holds(m.bytes[s.byte..s.end], defs[f.repl - 1].tokens[f.i..], verbatim)
  }

  lemma AtEnd(m: Memory, defs: seq<Definition>, s: OutputState, f: Frame, verbatim: bool)
    requires At(m, defs, s, f, verbatim)
    ensures s.byte == s.end <==> f.i == |defs[f.repl - 1].tokens|
    ensures s.byte == s.end ==> !verbatim
  {
    var rest := defs[f.repl - 1].tokens[f.i..];
    assert |m.bytes[s.byte..s.end]| == s.end - s.byte;
  }

  /** Bytes that begin with a token are read as that token, and the others are those of the tokens after it. */
  lemma TokenBytes(bytes: seq<Byte>, tokens: seq<Token>, verbatim: bool)
    requires tokens != [] && Holds(bytes, tokens, verbatim)
    ensures var tok, v := tokens[0], VerbatimAfter(tokens[0], verbatim); var n: nat := |Pack(tok)|;
      && Storable(tok, verbatim) && n <= |bytes| && Read(bytes, verbatim) == Some((tok, n))
      && Holds(bytes[n..], tokens[1..], v)
  {
    ReadPacked(tokens[0], verbatim, PackAll(tokens[1..], VerbatimAfter(tokens[0], verbatim)));
  }

  /** At a token: reading gives that token, and moves on to the next. */
  lemma AtToken(m: Memory, defs: seq<Definition>, s: OutputState, f: Frame, verbatim: bool)
    requires At(m, defs, s, f, verbatim) && AtAToken(defs, f)
    ensures var tok := Current(defs, f); var n: nat := |Pack(tok)|;
      && Storable(tok, verbatim) && s.byte + n <= s.end
      && Read(m.bytes[s.byte..s.end], verbatim) == Some((tok, n))
      && At(m, defs, s.(byte := s.byte + n, section := SectionAfter(tok, s.section)), Advanced(defs, f),
            VerbatimAfter(tok, verbatim))
  {
    var rest, bytes := defs[f.repl - 1].tokens[f.i..], m.bytes[s.byte..s.end];
    var n: nat := |Pack(Current(defs, f))|;
    assert rest[1..] == defs[f.repl - 1].tokens[f.i + 1..];
    assert n <= |bytes| ==> m.bytes[s.byte + n..s.end] == bytes[n..];
    TokenBytes(bytes, rest, verbatim);
  }

  lemma AtStart(m: Memory, defs: seq<Definition>, t: nat, section: nat)
    requires Represents(m, defs) && 1 <= t <= |defs|
    ensures t + 1 < |m.starts|
    ensures At(m, defs, OutputState(m.starts[t + 1], m.starts[t], t, section), Frame(t, 0, section), false)
  {
    assert HoldsDefinition(m, defs, t);
    assert defs[t - 1].tokens[0..] == defs[t - 1].tokens;
  }

  predicate AtAToken(defs: seq<Definition>, f: Frame) {
    FrameOk(defs, f) && f.i < |defs[f.repl - 1].tokens|
  }

  /** The token a level is at. */
  function Current(defs: seq<Definition>, f: Frame): Token
    requires AtAToken(defs, f)
  {
    defs[f.repl - 1].tokens[f.i]
  }

  /** The level once it has taken its token. */
  function Advanced(defs: seq<Definition>, f: Frame): (g: Frame)
    requires AtAToken(defs, f)
    ensures FrameOk(defs, g)
  {
    Frame(f.repl, f.i + 1, SectionAfter(Current(defs, f), f.section))
  }

  lemma NameInRange(m: Memory, defs: seq<Definition>, f: Frame)
    requires Represents(m, defs) && AtAToken(defs, f)
    ensures Current(defs, f).Ref? ==> Current(defs, f).n < MAX_NAMES
  {
    assert HoldsDefinition(m, defs, f.repl) && Current(defs, f) in defs[f.repl - 1].tokens;
  }

  /** A turn of a run, for the whole output rather than what the run has written of it. */
  lemma PassMade(
    m: Meaning, defs: seq<Definition>, start: seq<Frame>, below: seq<Frame>, f: Frame, before: seq<Out>, was: seq<Out>)
    requires FrameOk(defs, f) && Lawful(m, defs) && |below| < STACK_SIZE
    requires before <= was && Progress(m, start, below + [f], was[|before|..])
    ensures var next := Turn(defs, below, f); var now := was + Written(defs, f);
      && before <= now
      && if |next| > STACK_SIZE then Stopped(m, start, now[|before|..])
         else Progress(m, start, next, now[|before|..]) && TotalWork(m, next) < TotalWork(m, below + [f])
  {
    TurnMade(m, defs, start, below, f, was[|before|..]);
    assert (was + Written(defs, f))[|before|..] == was[|before|..] + Written(defs, f);
  }

  class OutputRoutine {
    const mem: Memory
    ghost const defs: seq<Definition>
    var cur: OutputState
    const stack: array<OutputState>
    var stackPtr: nat
    var verbatim: bool
    var output: seq<Out>
    var overflowed: bool
    // the machine's levels: those saved on the stack, and the current one
    ghost var below: seq<Frame>
    ghost var top: Frame

    /** The saved state `k` is the machine's level; slot 0 is not used. */
    ghost predicate Saved(k: nat)
      reads this`below, stack
    {
      k < |below| && k + 1 < stack.Length && At(mem, defs, stack[k + 1], below[k], false)
    }

    ghost predicate Valid()
      reads this`stackPtr, this`below, this`top, this`cur, this`verbatim, stack
    {
      && stack.Length == STACK_SIZE + 1 && stackPtr <= STACK_SIZE
      && (if stackPtr == 0 then below == [] && !verbatim
          else |below| + 1 == stackPtr && At(mem, defs, cur, top, verbatim))
      && (forall k: nat :: k < |below| ==> Saved(k))
    }

    ghost function Frames(): seq<Frame>
      reads this`stackPtr, this`below, this`top
    {
      if stackPtr == 0 then [] else below + [top]
    }

    constructor (m: Memory, ghost program: seq<Definition>)
      requires Represents(m, program)
      ensures Valid() && Represents(mem, defs) && mem == m && defs == program && fresh(stack)
      ensures stackPtr == 0 && output == [] && !overflowed && cur.section == 0
    {
      mem, defs := m, program;
      cur := OutputState(0, 0, 0, 0);
      stack := new OutputState[STACK_SIZE + 1](_ => OutputState(0, 0, 0, 0));
      stackPtr, verbatim, output, overflowed, below := 0, false, [], false, [];
    }

    /** `push_level` for a name with a replacement text. */
    method PushLevel(p: nat)
      requires Represents(mem, defs) && Valid() && stackPtr > 0 && !verbatim && 0 < p < MAX_NAMES && Defined(defs, p)
      modifies this`stackPtr, this`cur, this`overflowed, this`below, this`top, stack
      ensures overflowed == (old(overflowed) || old(stackPtr) == STACK_SIZE)
      ensures old(stackPtr) < STACK_SIZE ==>
        && Valid() && stackPtr == old(stackPtr) + 1
        && below == old(below) + [old(top)] && top == Frame(NextFrom(defs, p, 1, 0), 0, 0)
    {
      if stackPtr == STACK_SIZE {
        overflowed := true;
        return;
      }
      stack[stackPtr] := cur;
      stackPtr := stackPtr + 1;
      assert HoldsName(mem, defs, p);
      var repl := mem.equiv[p];
      AtStart(mem, defs, repl, 0);
      cur := OutputState(mem.starts[repl + 1], mem.starts[repl], repl, 0);
      below, top := below + [top], Frame(repl, 0, 0);
      forall k: nat | k < |below|
        ensures Saved(k)
      {
        assert k < |below| - 1 ==> old(Saved(k));
      }
    }

    /** On to text `repl`, the next of the chain. */
    method NextText(repl: nat)
      requires Represents(mem, defs) && Valid() && stackPtr > 0 && !verbatim && 1 <= repl <= |defs|
      modifies this`cur, this`top
      ensures Valid() && top == Frame(repl, 0, old(top).section)
    {
      AtStart(mem, defs, repl, top.section);
      cur := cur.(repl := repl, byte := mem.starts[repl], end := mem.starts[repl + 1]);
      top := Frame(repl, 0, top.section);
    }

    /** Back to the level below. */
    method DropLevel()
      requires Valid() && stackPtr > 0 && !verbatim
      modifies this`stackPtr, this`cur, this`below, this`top
      ensures Valid() && stackPtr == old(stackPtr) - 1 && Frames() == old(below)
    {
      stackPtr := stackPtr - 1;
      if stackPtr > 0 {
        cur := stack[stackPtr];
        assert Saved(stackPtr - 1);
        top, below := below[stackPtr - 1], below[..stackPtr - 1];
        forall k: nat | k < |below|
          ensures Saved(k)
        {
          assert old(Saved(k));
        }
      }
    }

    /** `pop_level`: on to the next text of the chain, or back to the level below. */
    method PopLevel()
      requires Represents(mem, defs) && Valid() && stackPtr > 0 && !verbatim
      requires FrameOk(defs, top) && top.i == |defs[top.repl - 1].tokens|
      modifies this`stackPtr, this`cur, this`below, this`top
      ensures Valid()
      ensures if Link(defs, old(top).repl) < SECTION_FLAG then
                && stackPtr == old(stackPtr) && below == old(below)
                && top == Frame(Link(defs, old(top).repl), 0, old(top).section)
              else stackPtr == old(stackPtr) - 1 && Frames() == old(below)
    {
      assert HoldsDefinition(mem, defs, top.repl);
      if mem.links[cur.repl] < SECTION_FLAG {
        NextText(mem.links[cur.repl]);
        return;
      }
      DropLevel();
    }

    /** Takes one token from memory. A used name is returned; every other token is written at once. */
    method Fetch(ghost tok: Token, ghost n: nat) returns (used: int)
      requires cur.byte <= cur.end <= |mem.bytes| && Read(mem.bytes[cur.byte..cur.end], verbatim) == Some((tok, n))
      modifies this`cur, this`verbatim, this`output
      ensures cur == old(cur).(byte := old(cur).byte + n, section := SectionAfter(tok, old(cur).section))
      ensures verbatim == VerbatimAfter(tok, old(verbatim))
      ensures if tok.Ref? then used == tok.n && output == old(output)
              else used == -1 && output == old(output) + Emit(tok, old(cur).section)
    {
      ghost var bytes := mem.bytes[cur.byte..cur.end];
      used := -1;
      var a := mem.bytes[cur.byte];
      cur := cur.(byte := cur.byte + 1);
      if verbatim && a != STRING && a != CONSTANT && a != NEWLINE {
        output := output + [Verb(a)];
      } else if a < 128 {
        output := output + [Put(a)];
        if a == STRING || a == CONSTANT {
          verbatim := !verbatim;
        }
      } else {
        var code := Code(a, mem.bytes[cur.byte]);
        cur := cur.(byte := cur.byte + 1);
        if code < IDENTIFIERS {
          output := output + [Name(code)];
        } else if code < LINE_CODES {
          used := code - IDENTIFIERS;
        } else if code > LINE_CODES {
          cur := cur.(section := code - LINE_CODES);
          output := output + [Mark(code - LINE_CODES)];
        } else {
          var line := Wide(mem.bytes[cur.byte], mem.bytes[cur.byte + 1]);
          var file := Code(mem.bytes[cur.byte + 2], mem.bytes[cur.byte + 3]);
          cur := cur.(byte := cur.byte + 4);
          output := output + [LineMark(line, file)];
        }
      }
    }

    /** The same for the machine's level. */
    method TakeToken() returns (used: int)
      requires Valid() && stackPtr > 0 && AtAToken(defs, top)
      modifies this`cur, this`verbatim, this`output, this`top
      ensures Valid() && top == Advanced(defs, old(top))
      ensures var tok := Current(defs, old(top));
        if tok.Ref? then used == tok.n && output == old(output) && !verbatim
        else used == -1 && output == old(output) + Emit(tok, old(top).section)
    {
      ghost var tok := Current(defs, top);
      AtToken(mem, defs, cur, top, verbatim);
      used := Fetch(tok, |Pack(tok)|);
      top := Advanced(defs, top);
    }

    /** One pass from the start of `get_output`: true if it goes back there. */
    method Pass() returns (restart: bool)
      requires Represents(mem, defs) && Valid() && stackPtr > 0 && !overflowed
      modifies this, stack
      ensures !overflowed ==> Valid() && Frames() == Turn(defs, old(below), old(top))
      ensures overflowed ==> |Turn(defs, old(below), old(top))| > STACK_SIZE
      ensures output == old(output) + Written(defs, old(top))
    {
      AtEnd(mem, defs, cur, top, verbatim);
      if cur.byte == cur.end {
        var curVal := 0 - cur.section;
        PopLevel();
        if curVal == 0 {
          return true;
        }
        output := output + [Mark(curVal)];
        return false;
      }
      restart := PassToken();
    }

    /** A pass that finds a token. A used name's replacement text is entered, or reported missing. */
    method PassToken() returns (restart: bool)
      requires Represents(mem, defs) && Valid() && stackPtr > 0 && !overflowed && AtAToken(defs, top)
      modifies this, stack
      ensures var tok := Current(defs, old(top));
        if Inserted(defs, tok) then
          && overflowed == (old(stackPtr) == STACK_SIZE) && output == old(output)
          && (!overflowed ==> Valid() && stackPtr == old(stackPtr) + 1
                              && below == old(below) + [Advanced(defs, old(top))]
                              && top == Frame(NextFrom(defs, tok.n, 1, 0), 0, 0))
        else
          && !overflowed && Valid() && stackPtr == old(stackPtr) && below == old(below)
          && top == Advanced(defs, old(top))
          && output == old(output) + Emit(tok, old(top).section)
    {
      NameInRange(mem, defs, top);
      var used := TakeToken();
      restart := used >= 0;
      if used >= 0 {
        assert HoldsName(mem, defs, used);
        if mem.equiv[used] != 0 {
          PushLevel(used);
        } else if used != 0 {
          output := output + [NotPresent(used)];
        }
      }
    }

    /** A run that began with the levels `start` and the output `before` is on its way to writing what `start` still had
        to come, or has stopped because that is nested too deep. */
    ghost predicate Running(m: Meaning, start: seq<Frame>, before: seq<Out>)
      reads this
    {
      && before <= output && Lawful(m, defs)
      && if overflowed then Stopped(m, start, output[|before|..])
         else Progress(m, start, Frames(), output[|before|..])
    }

    ghost function Left(m: Meaning): nat
      reads this
    {
      if overflowed then 0 else 1 + TotalWork(m, Frames())
    }

    /** One pass of a run. */
    method Proceed(ghost m: Meaning, ghost start: seq<Frame>, ghost before: seq<Out>) returns (restart: bool)
      requires Represents(mem, defs) && Valid() && Running(m, start, before) && stackPtr > 0 && !overflowed
      modifies this, stack
      ensures (!overflowed ==> Valid()) && Running(m, start, before) && Left(m) < old(Left(m))
    {
      PassMade(m, defs, start, below, top, before, output);
      restart := Pass();
    }

    /** `get_output`: passes until something is written, or the stack is empty. */
    method GetOutput(ghost m: Meaning, ghost start: seq<Frame>, ghost before: seq<Out>)
      requires Represents(mem, defs) && Valid() && Running(m, start, before) && stackPtr > 0 && !overflowed
      modifies this, stack
      ensures (!overflowed ==> Valid()) && Running(m, start, before) && Left(m) < old(Left(m))
    {
      var again := Proceed(m, start, before);
      while again && stackPtr > 0 && !overflowed
        invariant (!overflowed ==> Valid()) && Running(m, start, before) && Left(m) < old(Left(m))
        decreases Left(m)
      {
        again := Proceed(m, start, before);
      }
    }

    /** The levels of a run for `p` are set up. */
    method Begin(p: nat, repl: nat, section: nat)
      requires Represents(mem, defs) && Valid() && stackPtr == 0 && Defined(defs, p) && repl == NextFrom(defs, p, 1, 0)
      modifies this`stackPtr, this`cur, this`top
      ensures Valid() && Frames() == FirstFrames(defs, p, section)
    {
      AtStart(mem, defs, repl, section);
      stackPtr := 1;
      cur := OutputState(mem.starts[repl + 1], mem.starts[repl], repl, section);
      top := Frame(repl, 0, section);
    }

    /** The output loop. */
    method Loop(ghost m: Meaning)
      requires Represents(mem, defs) && Valid() && !overflowed && Lawful(m, defs)
      modifies this, stack
      ensures overflowed <==> !AllNest(m, old(Frames()))
      ensures if overflowed then old(output) <= output <= old(output) + Pending(m, old(Frames()))
              else output == old(output) + Pending(m, old(Frames())) && Valid() && stackPtr == 0
    {
      ghost var start, before := Frames(), output;
      assert output[|before|..] == [];
      NothingLeft(m, start, []);
      while stackPtr > 0 && !overflowed
        invariant (!overflowed ==> Valid()) && Running(m, start, before)
        decreases Left(m)
      {
        GetOutput(m, start, before);
      }
      NothingLeft(m, start, output[|before|..]);
      assert output == before + output[|before|..];
    }

    /** The output for one name: exactly its recursive expansion is written, unless it is nested deeper than the stack
        allows; then the program stops with a part of it written. */
    method Write(p: nat, repl: nat, section: nat)
      requires Represents(mem, defs) && Valid() && stackPtr == 0 && !overflowed
      requires Defined(defs, p) && repl == NextFrom(defs, p, 1, 0)
      modifies this, stack
      ensures overflowed <==> !Nests(defs, STACK_SIZE - 1, BodyFrom(defs, p, 1))
      ensures var expansion := Expand(defs, STACK_SIZE - 1, BodyFrom(defs, p, 1), section);
        if overflowed then old(output) <= output <= old(output) + expansion
        else output == old(output) + expansion && Valid() && stackPtr == 0
    {
      ExpansionIsLawful(defs);
      FirstPending(defs, p, section);
      Begin(p, repl, section);
      Loop(Expanding(defs));
    }
  }
}
