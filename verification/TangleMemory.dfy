/** Phase one's tables as they are filled: tokens packed into one array of bytes, texts of one name chained by links. */
module TangleMemory {
  import opened Tangle
  import opened TangleMachine
  import opened TangleOutput
  import opened TangleMarks

  const MAX_TOKS: nat := 270000

  /** The text a new one for `p` is chained to: the last one so far, 0 if there is none. */
  function LastOf(defs: seq<Definition>, p: nat): (t: nat)
    ensures t <= |defs| && (t > 0 ==> defs[t - 1].name == p)
  {
    if defs == [] then 0
    else if defs[|defs| - 1].name == p then |defs|
    else LastOf(defs[..|defs| - 1], p)
  }

  // ----- one definition more -----

  lemma {:induction false} NextMore(defs: seq<Definition>, d: Definition, p: nat, k: nat, none: nat)
    requires 1 <= k <= |defs| + 1 && (none == 0 || none > |defs| + 1)
    ensures NextFrom(defs + [d], p, k, none) ==
      if NextFrom(defs, p, k, none) != none then NextFrom(defs, p, k, none)
      else if d.name == p then |defs| + 1 else none
    decreases |defs| + 1 - k
  {
    if k <= |defs| && defs[k - 1].name != p {
      NextMore(defs, d, p, k + 1, none);
    }
  }

  /** Of the texts for `p`, exactly the last ends the chain. */
  lemma {:induction false} LastEndsChain(defs: seq<Definition>, t: nat)
    requires 1 <= t <= |defs| < SECTION_FLAG
    ensures Link(defs, t) == SECTION_FLAG <==> t == LastOf(defs, defs[t - 1].name)
  {
    var n := |defs| - 1;
    var p := defs[t - 1].name;
    assert defs == defs[..n] + [defs[n]];
    if t <= n {
      LastEndsChain(defs[..n], t);
      NextMore(defs[..n], defs[n], p, t + 1, SECTION_FLAG);
    }
  }

  lemma {:induction false} NoneIsUndefined(defs: seq<Definition>, p: nat)
    ensures NextFrom(defs, p, 1, 0) == 0 <==> LastOf(defs, p) == 0
  {
    if defs != [] {
      var n := |defs| - 1;
      assert defs == defs[..n] + [defs[n]];
      NoneIsUndefined(defs[..n], p);
      NextMore(defs[..n], defs[n], p, 1, 0);
    }
  }

  /** The tables after one more definition: the text before it in the chain, or the name itself, points to it. */
  function Chained(m: Memory, defs: seq<Definition>, d: Definition): Memory
    requires Stored(d.tokens, false) && d.name < |m.equiv| && |m.links| == |defs| + 1
  {
    var cur := |defs| + 1;
    var last := LastOf(defs, d.name);
    var bytes := m.bytes + PackAll(d.tokens, false);
    Memory(
      bytes, m.starts + [|bytes|],
      (if d.name == 0 || last > 0 then m.links[last := cur] else m.links) + [SECTION_FLAG],
      if d.name == 0 || last > 0 then m.equiv else m.equiv[d.name := cur])
  }

  lemma OldText(m: Memory, defs: seq<Definition>, d: Definition, t: nat)
    requires Represents(m, defs) && Stored(d.tokens, false) && d.name < MAX_NAMES
    requires |defs| + 1 < SECTION_FLAG && 1 <= t <= |defs|
    ensures HoldsDefinition(Chained(m, defs, d), defs + [d], t)
  {
    var m' := Chained(m, defs, d);
    assert HoldsDefinition(m, defs, t);
    NextMore(defs, d, defs[t - 1].name, t + 1, SECTION_FLAG);
    LastEndsChain(defs, t);
    assert m'.bytes[m.starts[t]..m.starts[t + 1]] == m.bytes[m.starts[t]..m.starts[t + 1]];
  }

  lemma NewText(m: Memory, defs: seq<Definition>, d: Definition)
    requires Represents(m, defs) && Stored(d.tokens, false) && NamesOk(d.tokens) && d.name < MAX_NAMES
    requires m.starts[|defs| + 1] == |m.bytes|
    ensures HoldsDefinition(Chained(m, defs, d), defs + [d], |defs| + 1)
  {
    var m', t := Chained(m, defs, d), |defs| + 1;
    assert m'.bytes[m'.starts[t]..m'.starts[t + 1]] == PackAll(d.tokens, false);
  }

  lemma ChainedRepresents(m: Memory, defs: seq<Definition>, d: Definition)
    requires Represents(m, defs) && Stored(d.tokens, false) && NamesOk(d.tokens) && d.name < MAX_NAMES
    requires |defs| + 1 < SECTION_FLAG && m.starts[|defs| + 1] == |m.bytes|
    ensures Represents(Chained(m, defs, d), defs + [d])
  {
    var m' := Chained(m, defs, d);
    var defs' := defs + [d];
    forall t | 1 <= t <= |defs'|
      ensures HoldsDefinition(m', defs', t)
    {
      if t <= |defs| {
        OldText(m, defs, d, t);
      } else {
        NewText(m, defs, d);
      }
    }
    forall p: nat | p < MAX_NAMES
      ensures HoldsName(m', defs', p)
    {
      assert HoldsName(m, defs, p);
      NextMore(defs, d, p, 1, 0);
      NoneIsUndefined(defs, p);
    }
  }

  // ----- the tables in place -----

  /** The first `i` tokens have been packed behind `start`, and the others complete them to `all`. */
  ghost predicate Packed(mem: seq<Byte>, start: seq<Byte>, tokens: seq<Token>, i: nat, v: bool, all: seq<Byte>) {
    i <= |tokens| && Stored(tokens[i..], v) && mem + PackAll(tokens[i..], v) == start + all
  }

  lemma PackedNext(mem: seq<Byte>, start: seq<Byte>, tokens: seq<Token>, i: nat, v: bool, all: seq<Byte>)
    requires Packed(mem, start, tokens, i, v, all) && i < |tokens|
    ensures Storable(tokens[i], v) && |mem| + |Pack(tokens[i])| <= |start| + |all|
    ensures Packed(mem + Pack(tokens[i]), start, tokens, i + 1, VerbatimAfter(tokens[i], v), all)
  {
    assert tokens[i..][1..] == tokens[i + 1..];
    var packed, rest := Pack(tokens[i]), PackAll(tokens[i + 1..], VerbatimAfter(tokens[i], v));
    assert mem + packed + rest == mem + (packed + rest);
    assert |mem + (packed + rest)| == |start + all|;
  }

  lemma PackedEnds(mem: seq<Byte>, start: seq<Byte>, tokens: seq<Token>, v: bool, all: seq<Byte>)
    requires Stored(tokens, false) && all == PackAll(tokens, false)
    ensures Packed(start, start, tokens, 0, false, all)
    ensures Packed(mem, start, tokens, |tokens|, v, all) ==> mem == start + all
  {
    assert tokens[0..] == tokens && tokens[|tokens|..] == [];
    assert mem + [] == mem;
  }

  class TokenMemory {
    const tokMem: array<Byte>
    var tokPtr: nat
    const tokStart: array<nat>
    const textLink: array<nat>
    var textPtr: nat
    const equiv: array<nat>
    var lastUnnamed: nat
    ghost var defs: seq<Definition>

    predicate Sized()
      reads this
    {
      && tokMem.Length == MAX_TOKS && tokPtr < MAX_TOKS
      && tokStart.Length == MAX_TEXTS + 1 && textLink.Length == MAX_TEXTS && equiv.Length == MAX_NAMES
      && tokStart != textLink && tokStart != equiv && textLink != equiv
      && 1 <= textPtr <= MAX_TEXTS
    }

    function View(): Memory
      requires Sized()
      reads this, tokMem, tokStart, textLink, equiv
    {
      Memory(tokMem[..tokPtr], tokStart[..textPtr + 1], textLink[..textPtr], equiv[..])
    }

    /** Between two sections the tables are those of the program read so far. */
    ghost predicate Valid()
      reads this, tokMem, tokStart, textLink, equiv
    {
      && Sized() && textPtr == |defs| + 1 && Represents(View(), defs)
      && tokStart[textPtr] == tokPtr && lastUnnamed == LastOf(defs, 0)
    }

    constructor ()
      ensures Valid() && defs == [] && tokPtr == 0
      ensures fresh(tokMem) && fresh(tokStart) && fresh(textLink) && fresh(equiv)
    {
      tokMem := new Byte[MAX_TOKS](_ => 0);
      tokStart := new nat[MAX_TEXTS + 1](_ => 0);
      textLink := new nat[MAX_TEXTS](_ => 0);
      equiv := new nat[MAX_NAMES](_ => 0);
      tokPtr, textPtr, lastUnnamed, defs := 0, 1, 0, [];
    }

    /** `app_repl`; false stands for the fatal overflow. */
    method AppRepl(c: Byte) returns (ok: bool)
      requires Sized()
      modifies this`tokPtr, tokMem
      ensures Sized() && ok == (old(tokPtr) + 1 < MAX_TOKS)
      ensures tokMem[..tokPtr] == old(tokMem[..tokPtr]) + if ok then [c] else []
    {
      if tokPtr == MAX_TOKS - 1 {
        return false;
      }
      tokMem[tokPtr] := c;
      tokPtr := tokPtr + 1;
      ok := true;
    }

    /** `store_two_bytes`, the more significant byte first. */
    method StoreTwoBytes(x: nat) returns (ok: bool)
      requires Sized() && x < 65536
      modifies this`tokPtr, tokMem
      ensures Sized() && ok == (old(tokPtr) + 2 < MAX_TOKS)
      ensures tokMem[..tokPtr] == old(tokMem[..tokPtr]) + if ok then TwoBytes(x) else []
    {
      if tokPtr + 2 > MAX_TOKS - 1 {
        return false;
      }
      tokMem[tokPtr] := x / 256;
      tokPtr := tokPtr + 1;
      tokMem[tokPtr] := x % 256;
      tokPtr := tokPtr + 1;
      ok := true;
    }

    method StoreCode(hi: Byte, lo: Byte) returns (ok: bool)
      requires Sized()
      modifies this`tokPtr, tokMem
      ensures Sized() && ok == (old(tokPtr) + 2 < MAX_TOKS)
      ensures ok ==> tokMem[..tokPtr] == old(tokMem[..tokPtr]) + [hi, lo]
    {
      ok := AppRepl(hi);
      if ok {
        ok := AppRepl(lo);
      }
    }

    /** One token of a text, as the scanner stores it. */
    method StoreToken(tok: Token, ghost v: bool) returns (ok: bool)
      requires Sized() && Storable(tok, v)
      modifies this`tokPtr, tokMem
      ensures Sized() && ok == (old(tokPtr) + |Pack(tok)| < MAX_TOKS)
      ensures ok ==> tokMem[..tokPtr] == old(tokMem[..tokPtr]) + Pack(tok)
    {
      match tok {
        case Plain(c) => ok := AppRepl(c);
        case Raw(b) => ok := AppRepl(b);
        case Ident(n) => ok := StoreCode(n / 256 + 128, n % 256);
        case Ref(n) => ok := StoreCode(n / 256 + 168, n % 256);
        case Section(n) => ok := StoreTwoBytes(53248 + n);
        case Line(l, f) =>
          ok := StoreTwoBytes(53248);
          if ok {
            ok := StoreTwoBytes(l);
          }
          if ok {
            ok := StoreCode(f / 256 + 128, f % 256);
          }
        case End =>
      }
    }

    /** All tokens of a text. */
    method StoreTokens(tokens: seq<Token>) returns (ok: bool)
      requires Sized() && Stored(tokens, false)
      modifies this`tokPtr, tokMem
      ensures Sized() && ok == (old(tokPtr) + |PackAll(tokens, false)| < MAX_TOKS)
      ensures ok ==> tokMem[..tokPtr] == old(tokMem[..tokPtr]) + PackAll(tokens, false)
    {
      ghost var start, all, v := tokMem[..tokPtr], PackAll(tokens, false), false;
      PackedEnds(start, start, tokens, false, all);
      ok := true;
      var i := 0;
      while i < |tokens|
        invariant 0 <= i <= |tokens| && Sized() && ok
        invariant Packed(tokMem[..tokPtr], start, tokens, i, v, all)
      {
        PackedNext(tokMem[..tokPtr], start, tokens, i, v, all);
        ok := StoreToken(tokens[i], v);
        if !ok {
          return;
        }
        v, i := VerbatimAfter(tokens[i], v), i + 1;
      }
      PackedEnds(tokMem[..tokPtr], start, tokens, v, all);
    }

    /** Follows the chain to its last text. */
    method ChainEnd(first: nat, ghost m: Memory) returns (q: nat)
      requires Sized() && Represents(m, defs) && 1 <= first <= |defs| && textLink[..|defs| + 1] == m.links
      ensures 1 <= q <= |defs| && q == LastOf(defs, defs[first - 1].name)
    {
      q := first;
      assert HoldsDefinition(m, defs, q);
      while textLink[q] < SECTION_FLAG
        invariant 1 <= q <= |defs| && defs[q - 1].name == defs[first - 1].name
        invariant textLink[q] == m.links[q] == Link(defs, q)
        decreases |defs| - q
      {
        q := textLink[q];
        assert HoldsDefinition(m, defs, q) && textLink[q] == m.links[q];
      }
      LastEndsChain(defs, q);
    }

    /** The new text `cur` goes to the end of the chain for `p`. */
    method ChainTo(p: nat, cur: nat, ghost m: Memory, ghost d: Definition)
      requires Sized() && Represents(m, defs) && cur == |defs| + 1 < MAX_TEXTS
      requires p == d.name < MAX_NAMES && Stored(d.tokens, false)
      requires textLink[..cur] == m.links && equiv[..] == m.equiv && lastUnnamed == LastOf(defs, 0)
      modifies this`lastUnnamed, textLink, equiv
      ensures textLink[..cur + 1] == Chained(m, defs, d).links && equiv[..] == Chained(m, defs, d).equiv
      ensures lastUnnamed == LastOf(defs + [d], 0)
    {
      NoneIsUndefined(defs, p);
      assert HoldsName(m, defs, p);
      assert (defs + [d])[..|defs|] == defs;
      if p == 0 {
        textLink[lastUnnamed] := cur;
        lastUnnamed := cur;
      } else if equiv[p] == 0 {
        equiv[p] := cur;
      } else {
        var q := ChainEnd(equiv[p], m);
        textLink[q] := cur;
      }
      textLink[cur] := SECTION_FLAG;
    }

    /** The stored tokens become a text; the next one starts behind them. */
    method FinishText() returns (cur: nat)
      requires Sized() && textPtr < MAX_TEXTS
      modifies this`textPtr, tokStart
      ensures Sized() && cur == old(textPtr) && textPtr == cur + 1
      ensures tokStart[..textPtr + 1] == old(tokStart[..textPtr + 1]) + [tokPtr]
    {
      cur := textPtr;
      textPtr := textPtr + 1;
      tokStart[textPtr] := tokPtr;
    }

    /** The tokens just stored become the text of definition `d`. */
    method AddText(p: nat, ghost d: Definition, ghost m: Memory)
      requires Sized() && textPtr == |defs| + 1 < MAX_TEXTS && lastUnnamed == LastOf(defs, 0)
      requires Represents(m, defs) && m.starts[textPtr] == |m.bytes|
      requires p == d.name < MAX_NAMES && Stored(d.tokens, false) && NamesOk(d.tokens)
      requires View() == m.(bytes := m.bytes + PackAll(d.tokens, false))
      modifies this`textPtr, this`lastUnnamed, this`defs, tokStart, textLink, equiv
      ensures Sized() && textPtr == |defs| + 1 && defs == old(defs) + [d]
      ensures View() == Chained(m, old(defs), d)
      ensures tokStart[textPtr] == tokPtr && lastUnnamed == LastOf(defs, 0)
    {
      assert textLink[..textPtr] == m.links && equiv[..] == m.equiv;
      var cur := FinishText();
      ChainTo(p, cur, m, d);
      defs := defs + [d];
    }

    /** A section's text is stored and chained to the texts of the same name; false stands for a fatal overflow. */
    method DefineSection(p: nat, tokens: seq<Token>) returns (ok: bool)
      requires Valid() && p < MAX_NAMES && Stored(tokens, false) && NamesOk(tokens)
      modifies this, tokMem, tokStart, textLink, equiv
      ensures ok == (old(tokPtr) + |PackAll(tokens, false)| < MAX_TOKS && old(|defs|) + 1 < MAX_TEXTS)
      ensures ok ==> Valid() && defs == old(defs) + [Definition(p, tokens)]
      ensures ok ==> tokPtr == old(tokPtr) + |PackAll(tokens, false)|
    {
      ghost var m, d := View(), Definition(p, tokens);
      ok := StoreTokens(tokens);
      if !ok || textPtr > MAX_TEXTS - 1 {
        return false;
      }
      ChainedRepresents(m, defs, d);
      AddText(p, d, m);
    }
  }

  // ----- both phases -----

  datatype Result = Written(out: seq<Out>) | Overflow

  /** Everything the scanner hands over can be stored. */
  ghost predicate Storables(program: seq<Definition>) {
    forall d :: d in program ==> d.name < MAX_NAMES && Stored(d.tokens, false) && NamesOk(d.tokens)
  }

  ghost function TotalBytes(program: seq<Definition>): nat
    requires Storables(program)
  {
    if program == [] then 0
    else
      assert program[|program| - 1] in program;
      TotalBytes(program[..|program| - 1]) + |PackAll(program[|program| - 1].tokens, false)|
  }

  lemma {:induction false} BytesGrow(program: seq<Definition>, n: nat)
    requires Storables(program) && n <= |program|
    ensures TotalBytes(program[..n]) <= TotalBytes(program)
    decreases |program|
  {
    if n < |program| {
      BytesGrow(program[..|program| - 1], n);
      assert program[..|program| - 1][..n] == program[..n];
    } else {
      assert program[..n] == program;
    }
  }

  lemma OneMoreDefinition(program: seq<Definition>, i: nat)
    requires Storables(program) && i < |program|
    ensures program[..i + 1] == program[..i] + [Definition(program[i].name, program[i].tokens)]
    ensures program[i].name < MAX_NAMES && Stored(program[i].tokens, false) && NamesOk(program[i].tokens)
    ensures TotalBytes(program[..i + 1]) == TotalBytes(program[..i]) + |PackAll(program[i].tokens, false)|
    ensures TotalBytes(program[..i + 1]) <= TotalBytes(program)
  {
    assert program[i] in program;
    assert program[..i + 1][..i] == program[..i];
    BytesGrow(program, i + 1);
  }

  /** A program overflows a table or the stack. */
  ghost predicate TooBig(program: seq<Definition>)
    requires Storables(program)
  {
    || |program| >= MAX_TEXTS || TotalBytes(program) >= MAX_TOKS
    || (Defined(program, 0) && !Nests(program, STACK_SIZE - 1, BodyFrom(program, 0, 1)))
  }

  /** Phase one: the tables for the sections of a program, or a fatal overflow. */
  method ReadProgram(program: seq<Definition>) returns (tables: TokenMemory, ok: bool)
    requires Storables(program)
    ensures ok == (|program| < MAX_TEXTS && TotalBytes(program) < MAX_TOKS)
    ensures ok ==> tables.Valid() && tables.defs == program
  {
    tables := new TokenMemory();
    ok := true;
    for i := 0 to |program|
      invariant tables.Valid() && tables.defs == program[..i] && tables.tokPtr == TotalBytes(program[..i])
      invariant fresh(tables) && fresh(tables.tokMem) && fresh(tables.tokStart)
      invariant fresh(tables.textLink) && fresh(tables.equiv)
    {
      OneMoreDefinition(program, i);
      ok := tables.DefineSection(program[i].name, program[i].tokens);
      if !ok {
        return;
      }
    }
    assert program[..|program|] == program;
  }

  /** From the sections of a program to its unnamed output file. It succeeds exactly when the program fits, and then
      writes its recursive expansion. */
  method RunTangle(program: seq<Definition>) returns (r: Result)
    requires Storables(program)
    ensures r == Overflow <==> TooBig(program)
    ensures r.Written? ==>
      r.out == if Defined(program, 0) then Expand(program, STACK_SIZE - 1, BodyFrom(program, 0, 1), 0) else []
    ensures r.Written? && AllMarked(program) ==> Nested(Values(r.out))
    ensures r.Written? && Defined(program, 0) ==>
      Spelling(r.out) == Visited(program, STACK_SIZE - 1, BodyFrom(program, 0, 1))
  {
    var tables, ok := ReadProgram(program);
    if !ok {
      return Overflow;
    }
    assert HoldsName(tables.View(), program, 0);
    if tables.textLink[0] == 0 {
      return Written([]);
    }
    var routine := new OutputRoutine(tables.View(), program);
    routine.Write(0, tables.textLink[0], 0);
    if AllMarked(program) {
      MarksNest(program, STACK_SIZE - 1, 0, 0);
    }
    ExpansionSpells(program, STACK_SIZE - 1, BodyFrom(program, 0, 1), 0);
    r := if routine.overflowed then Overflow else Written(routine.output);
  }
}
