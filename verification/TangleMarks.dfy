/** What the expansion of a program looks like, told without saying how it is made: its section marks nest like
    brackets, and its other requests spell the tokens visited. */
module TangleMarks {
  import opened Collections
  import opened Tangle

  // ----- brackets -----

  /** The section marks among the output requests. */
  function Values(out: seq<Out>): seq<int> {
    if out == [] then [] else (if out[0].Mark? then [out[0].v] else []) + Values(out[1..])
  }

  /** The brackets still open after these marks: a positive number opens one, its negative closes the innermost. None if
      a mark closes none. */
  function Closed(open: seq<int>, marks: seq<int>): Option<seq<int>>
    decreases |marks|
  {
    if marks == [] then Some(open)
    else if marks[0] > 0 then Closed(open + [marks[0]], marks[1..])
    else if open != [] && marks[0] == -open[|open| - 1] then Closed(open[..|open| - 1], marks[1..])
    else None
  }

  /** Every bracket is closed, innermost first. */
  predicate Nested(marks: seq<int>) {
    Closed([], marks) == Some([])
  }

  function Sum(marks: seq<int>): int {
    if marks == [] then 0 else marks[0] + Sum(marks[1..])
  }

  lemma {:induction false} SumOfJoin(a: seq<int>, b: seq<int>)
    ensures Sum(a + b) == Sum(a) + Sum(b)
  {
    if a == [] {
      assert a + b == b;
    } else {
      assert (a + b)[1..] == a[1..] + b;
      SumOfJoin(a[1..], b);
    }
  }

  lemma {:induction false} SumOfClosed(open: seq<int>, marks: seq<int>)
    requires Closed(open, marks).Some?
    ensures Sum(open) + Sum(marks) == Sum(Closed(open, marks).value)
    decreases |marks|
  {
    if marks != [] {
      if marks[0] > 0 {
        SumOfJoin(open, [marks[0]]);
        SumOfClosed(open + [marks[0]], marks[1..]);
      } else {
        var n := |open| - 1;
        assert open == open[..n] + [open[n]];
        SumOfJoin(open[..n], [open[n]]);
        SumOfClosed(open[..n], marks[1..]);
      }
    }
  }

  lemma {:induction false} ClosedJoin(open: seq<int>, a: seq<int>, b: seq<int>)
    requires Closed(open, a).Some?
    ensures Closed(open, a + b) == Closed(Closed(open, a).value, b)
    decreases |a|
  {
    if a == [] {
      assert a + b == b;
    } else {
      assert (a + b)[1..] == a[1..] + b;
      if a[0] > 0 {
        ClosedJoin(open + [a[0]], a[1..], b);
      } else {
        ClosedJoin(open[..|open| - 1], a[1..], b);
      }
    }
  }

  lemma {:induction false} ValuesJoin(a: seq<Out>, b: seq<Out>)
    ensures Values(a + b) == Values(a) + Values(b)
  {
    if a == [] {
      assert a + b == b;
    } else {
      assert (a + b)[1..] == a[1..] + b && (a + b)[0] == a[0];
      ValuesJoin(a[1..], b);
      var first := if a[0].Mark? then [a[0].v] else [];
      assert first + (Values(a[1..]) + Values(b)) == first + Values(a[1..]) + Values(b);
    }
  }

  // ----- the expansion nests -----

  predicate Unmarked(tokens: seq<Token>) {
    forall tok :: tok in tokens ==> !tok.Section? && !tok.End?
  }

  /** The text begins with its section number and has no other. */
  predicate MarkedOnce(tokens: seq<Token>) {
    tokens != [] && tokens[0].Section? && tokens[0].n > 0 && Unmarked(tokens[1..])
  }

  /** Every text is stored the way sections of a program are. */
  predicate AllMarked(defs: seq<Definition>) {
    forall i :: 0 <= i < |defs| ==> MarkedOnce(defs[i].tokens)
  }

  /** Output that leaves the brackets as they were. */
  predicate Neutral(open: seq<int>, out: seq<Out>) {
    Closed(open, Values(out)) == Some(open)
  }

  lemma NeutralJoin(open: seq<int>, a: seq<Out>, b: seq<Out>)
    requires Neutral(open, a) && Neutral(open, b)
    ensures Neutral(open, a + b)
  {
    ValuesJoin(a, b);
    ClosedJoin(open, Values(a), Values(b));
  }

  lemma {:induction false} ExpandJoin(
    defs: seq<Definition>, levels: nat, a: seq<Token>, b: seq<Token>, section: nat)
    requires forall tok :: tok in a ==> !tok.Section?
    ensures Expand(defs, levels, a + b, section) == Expand(defs, levels, a, section) + Expand(defs, levels, b, section)
    decreases |a|
  {
    if a == [] {
      assert a + b == b;
    } else {
      assert (a + b)[1..] == a[1..] + b && a[0] in a;
      ExpandJoin(defs, levels, a[1..], b, section);
    }
  }

  lemma PlainIsNeutral(tok: Token, section: nat, open: seq<int>)
    requires !tok.Section? && !tok.End?
    ensures Neutral(open, Emit(tok, section))
  {
    assert Values(Emit(tok, section)) == [];
  }

  lemma {:induction false} TextIsNeutral(
    defs: seq<Definition>, levels: nat, tokens: seq<Token>, section: nat, open: seq<int>)
    requires AllMarked(defs) && Unmarked(tokens)
    ensures Neutral(open, Expand(defs, levels, tokens, section))
    decreases levels, 0, |tokens|
  {
    if tokens != [] {
      var tok, rest := tokens[0], Expand(defs, levels, tokens[1..], section);
      assert tok in tokens;
      assert Neutral(open, rest) by {
        TextIsNeutral(defs, levels, tokens[1..], section, open);
      }
      if !Inserted(defs, tok) {
        PlainIsNeutral(tok, section, open);
        NeutralJoin(open, Emit(tok, section), rest);
      } else if levels > 0 {
        BodyIsNeutral(defs, levels - 1, tok.n, 1, 0, open);
        NeutralJoin(open, Expand(defs, levels - 1, BodyFrom(defs, tok.n, 1), 0), rest);
      } else {
        NeutralJoin(open, [], rest);
      }
    }
  }

  lemma {:induction false} BodyIsNeutral(
    defs: seq<Definition>, levels: nat, p: nat, k: nat, section: nat, open: seq<int>)
    requires AllMarked(defs) && k >= 1
    ensures Neutral(open, Expand(defs, levels, BodyFrom(defs, p, k), section))
    decreases levels, 1, |defs| + 1 - k
  {
    if k > |defs| {
    } else if defs[k - 1].name == p {
      var tokens, later := defs[k - 1].tokens, BodyFrom(defs, p, k + 1);
      assert MarkedOnce(tokens);
      var n := tokens[0].n;
      var inner := Expand(defs, levels, tokens[1..], n);
      var after := Expand(defs, levels, later, n);
      assert Neutral(open + [n], inner) by {
        TextIsNeutral(defs, levels, tokens[1..], n, open + [n]);
      }
      assert Neutral(open, after) by {
        BodyIsNeutral(defs, levels, p, k + 1, n, open);
      }
      TextExpands(defs, levels, tokens, later, section);
      BracketIsNeutral(n, inner, after, open);
      assert Expand(defs, levels, BodyFrom(defs, p, k), section) == Bracketed(n, inner, after);
    } else {
      BodyIsNeutral(defs, levels, p, k + 1, section, open);
    }
  }

  /** A section between its marks, and what follows. */
  function Bracketed(n: nat, inner: seq<Out>, later: seq<Out>): seq<Out> {
    [Mark(n)] + (inner + ([Mark(0 - n)] + later))
  }

  /** A text and what follows it in its chain. */
  lemma TextExpands(defs: seq<Definition>, levels: nat, tokens: seq<Token>, later: seq<Token>, section: nat)
    requires MarkedOnce(tokens)
    ensures var n := tokens[0].n;
      Expand(defs, levels, tokens + [End] + later, section) ==
      Bracketed(n, Expand(defs, levels, tokens[1..], n), Expand(defs, levels, later, n))
  {
    var n, tail := tokens[0].n, tokens[1..];
    assert (tokens + [End] + later)[1..] == tail + ([End] + later);
    ExpandJoin(defs, levels, tail, [End] + later, n);
    assert ([End] + later)[1..] == later;
  }

  lemma BracketIsNeutral(n: nat, inner: seq<Out>, later: seq<Out>, open: seq<int>)
    requires n > 0 && Neutral(open + [n], inner) && Neutral(open, later)
    ensures Neutral(open, Bracketed(n, inner, later))
  {
    var close := [Mark(0 - n)] + later;
    assert close[1..] == later;
    assert (open + [n])[..|open|] == open;
    assert Closed(open + [n], Values(close)) == Some(open) by {
      assert Values(close)[1..] == Values(later);
    }
    ValuesJoin(inner, close);
    ClosedJoin(open + [n], Values(inner), Values(close));
    var whole := [Mark(n)] + (inner + close);
    assert whole[1..] == inner + close;
    assert Values(whole)[1..] == Values(inner + close);
  }

  /** Of a program whose texts each begin with their section number, the marks written for a name nest like brackets:
      every section that opens is closed, innermost first, and they add up to nothing. */
  lemma MarksNest(defs: seq<Definition>, levels: nat, p: nat, section: nat)
    requires AllMarked(defs)
    ensures var marks := Values(Expand(defs, levels, BodyFrom(defs, p, 1), section)); Nested(marks) && Sum(marks) == 0
  {
    BodyIsNeutral(defs, levels, p, 1, section, []);
    SumOfClosed([], Values(Expand(defs, levels, BodyFrom(defs, p, 1), section)));
  }

  /** What a used name stands for does not depend on the section that uses it. */
  lemma UsesStandAlone(defs: seq<Definition>, levels: nat, tok: Token, section: nat, other: nat)
    requires Inserted(defs, tok)
    ensures Expand(defs, levels, [tok], section) == Expand(defs, levels, [tok], other)
  {
    assert [tok][1..] == [];
  }

  // ----- what is written besides -----

  /** The tokens output requests spell, marks at the end of a section aside. */
  function Spelling(out: seq<Out>): seq<Token> {
    if out == [] then [] else Spelled(out[0]) + Spelling(out[1..])
  }

  function Spelled(o: Out): seq<Token> {
    match o
    case Put(c) => [Plain(c)]
    case Verb(b) => [Raw(b)]
    case Name(n) => [Ident(n)]
    case Mark(v) => if v < 0 then [] else [Section(v)]
    case LineMark(l, f) => [Line(l, f)]
    case NotPresent(n) => [Ref(n)]
  }

  /** The tokens a walk through the texts comes to, going into names that have a text and leaving out the unnamed
      one. */
  function Visited(defs: seq<Definition>, levels: nat, tokens: seq<Token>): seq<Token>
    decreases levels, |tokens|
  {
    if tokens == [] then []
    else
      (if Inserted(defs, tokens[0]) then
         if levels > 0 then Visited(defs, levels - 1, BodyFrom(defs, tokens[0].n, 1)) else []
       else if tokens[0] == End || tokens[0] == Ref(0) then []
       else [tokens[0]])
      + Visited(defs, levels, tokens[1..])
  }

  lemma {:induction false} SpellingJoin(a: seq<Out>, b: seq<Out>)
    ensures Spelling(a + b) == Spelling(a) + Spelling(b)
  {
    if a == [] {
      assert a + b == b;
    } else {
      assert (a + b)[1..] == a[1..] + b && (a + b)[0] == a[0];
      SpellingJoin(a[1..], b);
      assert Spelled(a[0]) + (Spelling(a[1..]) + Spelling(b)) == Spelled(a[0]) + Spelling(a[1..]) + Spelling(b);
    }
  }

  /** The output spells exactly the tokens visited, each once and in order; an undefined name is reported once. */
  lemma {:induction false} ExpansionSpells(defs: seq<Definition>, levels: nat, tokens: seq<Token>, section: nat)
    ensures Spelling(Expand(defs, levels, tokens, section)) == Visited(defs, levels, tokens)
    decreases levels, |tokens|
  {
    if tokens != [] {
      var tok, after := tokens[0], SectionAfter(tokens[0], section);
      ExpansionSpells(defs, levels, tokens[1..], after);
      var rest := Expand(defs, levels, tokens[1..], after);
      if !Inserted(defs, tok) {
        SpellingJoin(Emit(tok, section), rest);
        EmitSpells(tok, section);
      } else if levels > 0 {
        ExpansionSpells(defs, levels - 1, BodyFrom(defs, tok.n, 1), 0);
        SpellingJoin(Expand(defs, levels - 1, BodyFrom(defs, tok.n, 1), 0), rest);
      } else {
        assert [] + rest == rest;
      }
    }
  }

  lemma EmitSpells(tok: Token, section: nat)
    ensures Spelling(Emit(tok, section)) == if tok == End || tok == Ref(0) then [] else [tok]
  {
    var out := Emit(tok, section);
    assert out != [] ==> |out| == 1 && out[1..] == [];
  }
}
