/** Replacement texts, their packed form, and what a program expands to, section by section. */
module Tangle {
  import opened Collections
  type Byte = b: int | 0 <= b < 256

  const STRING: Byte := 2
  const CONSTANT: Byte := 3
  const NEWLINE: Byte := 10
  const IDENTIFIERS: int := 10240       // codes below stand for identifiers
  const LINE_CODES: int := 20480        // codes from here on for section numbers
  const MAX_TEXTS: nat := 2500
  const SECTION_FLAG: nat := MAX_TEXTS  // ends a chain of replacement texts
  const STACK_SIZE: nat := 50

  /** The tokens of a replacement text. `End` is not stored: it stands for the end of one text of a chain. */
  datatype Token =
    | Plain(c: Byte)
    | Raw(b: Byte)
    | Ident(n: nat)
    | Ref(n: nat)
    | Section(n: nat)
    | Line(line: nat, file: nat)
    | End

  /** What the output routine is asked to write. */
  datatype Out =
    | Put(c: Byte)
    | Verb(b: Byte)
    | Name(n: nat)
    | Mark(v: int)
    | LineMark(line: nat, file: nat)
    | NotPresent(n: nat)

  // ----- packed tokens -----

  /** Characters that are looked at even inside a string. */
  predicate Special(c: Byte) {
    c == STRING || c == CONSTANT || c == NEWLINE
  }

  predicate Storable(tok: Token, verbatim: bool) {
    match tok
    case Plain(c) => if verbatim then Special(c) else c < 128
    case Raw(b) => verbatim && !Special(b)
    case Ident(n) => !verbatim && n < IDENTIFIERS
    case Ref(n) => !verbatim && n < IDENTIFIERS - 1
    case Section(n) => !verbatim && 0 < n < 65536 - 32768 - LINE_CODES
    case Line(l, f) => !verbatim && l < 65536 && f < 32768
    case End => false
  }

  /** Strings and constants are verbatim between two marks. */
  predicate VerbatimAfter(tok: Token, verbatim: bool) {
    if tok == Plain(STRING) || tok == Plain(CONSTANT) then !verbatim else verbatim
  }

  /** A whole text: every token can be stored and all strings are closed. */
  predicate Stored(tokens: seq<Token>, verbatim: bool) {
    if tokens == [] then !verbatim
    else Storable(tokens[0], verbatim) && Stored(tokens[1..], VerbatimAfter(tokens[0], verbatim))
  }

  function TwoBytes(x: nat): seq<Byte>
    requires x < 65536
  {
    [x / 256, x % 256]
  }

  function Pack(tok: Token): seq<Byte>
    requires exists verbatim :: Storable(tok, verbatim)
  {
    match tok
    case Plain(c) => [c]
    case Raw(b) => [b]
    case Ident(n) => [n / 256 + 128, n % 256]
    case Ref(n) => [n / 256 + 168, n % 256]
    case Section(n) => TwoBytes(53248 + n)
    case Line(l, f) => TwoBytes(53248) + TwoBytes(l) + [f / 256 + 128, f % 256]
  }

  function PackAll(tokens: seq<Token>, verbatim: bool): seq<Byte>
    requires Stored(tokens, verbatim)
  {
    if tokens == [] then [] else Pack(tokens[0]) + PackAll(tokens[1..], VerbatimAfter(tokens[0], verbatim))
  }

  function Wide(hi: int, lo: int): int {
    hi * 256 + lo
  }

  /** The number in two bytes whose first carries the high bit. */
  function Code(hi: int, lo: int): int {
    Wide(hi - 128, lo)
  }

  /** The next token in memory, as the output routine takes it apart, and the bytes it occupies. None where the code
      would read past the text, or finds the flag for macro definitions. */
  function Read(bytes: seq<Byte>, verbatim: bool): (r: Option<(Token, nat)>)
    ensures r.Some? ==> 0 < r.value.1 <= |bytes|
  {
    if bytes == [] then None
    else if verbatim && !Special(bytes[0]) then Some((Raw(bytes[0]), 1))
    else if bytes[0] < 128 then Some((Plain(bytes[0]), 1))
    else if |bytes| < 2 then None
    else
      var a := Code(bytes[0], bytes[1]);
      if a < IDENTIFIERS then Some((Ident(a), 2))
      else if a == LINE_CODES - 1 then None
      else if a < LINE_CODES then Some((Ref(a - IDENTIFIERS), 2))
      else if a > LINE_CODES then Some((Section(a - LINE_CODES), 2))
      else if |bytes| < 6 || bytes[4] < 128 then None
      else Some((Line(Wide(bytes[2], bytes[3]), Code(bytes[4], bytes[5])), 6))
  }

  /** Packed tokens are read back as they were stored, whatever follows them. */
  lemma ReadPacked(tok: Token, verbatim: bool, rest: seq<Byte>)
    requires Storable(tok, verbatim)
    ensures Read(Pack(tok) + rest, verbatim) == Some((tok, |Pack(tok)|))
  {
    var bytes := Pack(tok) + rest;
    if tok.Line? {
      assert bytes[..6] == Pack(tok);
    }
  }

  /** All tokens of a stretch of memory, while they can be read. */
  function ReadAll(bytes: seq<Byte>, verbatim: bool): Option<seq<Token>>
    decreases |bytes|
  {
    if bytes == [] then Some([])
    else
      var r := Read(bytes, verbatim);
      if r.None? then None
      else
        var (tok, n) := r.value;
        var rest := ReadAll(bytes[n..], VerbatimAfter(tok, verbatim));
        if rest.None? then None else Some([tok] + rest.value)
  }

  lemma {:induction false} ReadAllPacked(tokens: seq<Token>, verbatim: bool)
    requires Stored(tokens, verbatim)
    ensures ReadAll(PackAll(tokens, verbatim), verbatim) == Some(tokens)
  {
    if tokens != [] {
      var v := VerbatimAfter(tokens[0], verbatim);
      var bytes := PackAll(tokens, verbatim);
      var n := |Pack(tokens[0])|;
      ReadPacked(tokens[0], verbatim, PackAll(tokens[1..], v));
      assert Read(bytes, verbatim) == Some((tokens[0], n)) && bytes != [] && n > 0;
      assert bytes[n..] == PackAll(tokens[1..], v);
      ReadAllPacked(tokens[1..], v);
      assert tokens == [tokens[0]] + tokens[1..];
    }
  }

  // ----- programs -----

  /** One section's replacement text for a name; name 0 is the unnamed program. */
  datatype Definition = Definition(name: nat, tokens: seq<Token>)

  /** Index, counted from 1, of the first text at or after `k` that belongs to `p`; `none` if there is none. */
  function NextFrom(defs: seq<Definition>, p: nat, k: nat, none: nat): (t: nat)
    requires k >= 1
    ensures t == none || (k <= t <= |defs| && defs[t - 1].name == p)
    decreases |defs| + 1 - k
  {
    if k > |defs| then none
    else if defs[k - 1].name == p then k
    else NextFrom(defs, p, k + 1, none)
  }

  /** The texts for `p` at or after index `k`, one after the other. */
  function BodyFrom(defs: seq<Definition>, p: nat, k: nat): seq<Token>
    requires k >= 1
    decreases |defs| + 1 - k
  {
    if k > |defs| then []
    else if defs[k - 1].name == p then defs[k - 1].tokens + [End] + BodyFrom(defs, p, k + 1)
    else BodyFrom(defs, p, k + 1)
  }

  predicate Defined(defs: seq<Definition>, p: nat) {
    NextFrom(defs, p, 1, 0) != 0
  }

  /** Is `q` used where its text is inserted. */
  predicate Inserted(defs: seq<Definition>, tok: Token) {
    tok.Ref? && tok.n > 0 && Defined(defs, tok.n)
  }

  // ----- what a program means -----

  /** What one token that is not inserted asks for. */
  function Emit(tok: Token, section: nat): seq<Out> {
    match tok
    case Plain(c) => [Put(c)]
    case Raw(b) => [Verb(b)]
    case Ident(n) => [Name(n)]
    case Ref(n) => if n == 0 then [] else [NotPresent(n)]
    case Section(n) => [Mark(n)]
    case Line(l, f) => [LineMark(l, f)]
    case End => if section == 0 then [] else [Mark(0 - section)]
  }

  function SectionAfter(tok: Token, section: nat): nat {
    if tok.Section? then tok.n else section
  }

  /** Uses are nested at most `levels` deep. */
  predicate Nests(defs: seq<Definition>, levels: nat, tokens: seq<Token>)
    decreases levels, |tokens|
  {
    tokens != [] ==>
      && (Inserted(defs, tokens[0]) ==> levels > 0 && Nests(defs, levels - 1, BodyFrom(defs, tokens[0].n, 1)))
      && Nests(defs, levels, tokens[1..])
  }

  /** Recursive expansion: a name stands for all its texts in order, expanded in turn, starting outside any section.
      Where uses are nested deeper than `levels`, they stand for nothing. */
  function Expand(defs: seq<Definition>, levels: nat, tokens: seq<Token>, section: nat): seq<Out>
    decreases levels, |tokens|
  {
    if tokens == [] then []
    else
      (if !Inserted(defs, tokens[0]) then Emit(tokens[0], section)
       else if levels > 0 then Expand(defs, levels - 1, BodyFrom(defs, tokens[0].n, 1), 0)
       else [])
      + Expand(defs, levels, tokens[1..], SectionAfter(tokens[0], section))
  }

  /** How many turns the output routine may need. */
  function Work(defs: seq<Definition>, levels: nat, tokens: seq<Token>): nat
    decreases levels, |tokens|
  {
    if tokens == [] then 0
    else
      1
        + (if Inserted(defs, tokens[0]) && levels > 0 then Work(defs, levels - 1, BodyFrom(defs, tokens[0].n, 1))
           else 0)
        + Work(defs, levels, tokens[1..])
  }

  // ----- how deep a program nests -----

  /** More levels than are needed make no difference. */
  lemma {:induction false} LevelsAreImmaterial(
    defs: seq<Definition>, levels: nat, more: nat, tokens: seq<Token>, section: nat)
    requires Nests(defs, levels, tokens) && levels <= more
    ensures Nests(defs, more, tokens) && Expand(defs, more, tokens, section) == Expand(defs, levels, tokens, section)
    decreases levels, |tokens|
  {
    if tokens != [] {
      LevelsAreImmaterial(defs, levels, more, tokens[1..], SectionAfter(tokens[0], section));
      if Inserted(defs, tokens[0]) {
        LevelsAreImmaterial(defs, levels - 1, more - 1, BodyFrom(defs, tokens[0].n, 1), 0);
      }
    }
  }

  /** No name's text leads back to it, however indirectly: uses go down in rank. */
  ghost predicate Acyclic(defs: seq<Definition>, rank: nat -> nat) {
    forall i, tok :: 0 <= i < |defs| && tok in defs[i].tokens && Inserted(defs, tok) ==>
      rank(tok.n) < rank(defs[i].name)
  }

  lemma {:induction false} UsesGoDown(defs: seq<Definition>, rank: nat -> nat, p: nat, k: nat)
    requires Acyclic(defs, rank) && k >= 1
    ensures forall tok :: tok in BodyFrom(defs, p, k) && Inserted(defs, tok) ==> rank(tok.n) < rank(p)
    decreases |defs| + 1 - k
  {
    if k <= |defs| {
      UsesGoDown(defs, rank, p, k + 1);
    }
  }

  /** An acyclic program nests no deeper than its ranking. */
  lemma {:induction false} AcyclicNests(defs: seq<Definition>, rank: nat -> nat, levels: nat, tokens: seq<Token>)
    requires Acyclic(defs, rank)
    requires forall tok :: tok in tokens && Inserted(defs, tok) ==> rank(tok.n) < levels
    ensures Nests(defs, levels, tokens)
    decreases levels, |tokens|
  {
    if tokens != [] {
      AcyclicNests(defs, rank, levels, tokens[1..]);
      if Inserted(defs, tokens[0]) {
        var p := tokens[0].n;
        UsesGoDown(defs, rank, p, 1);
        AcyclicNests(defs, rank, levels - 1, BodyFrom(defs, p, 1));
      }
    }
  }

  /** A name whose text leads back to it, use by use, nests in no number of levels. */
  lemma {:induction false} CycleNeverNests(defs: seq<Definition>, cycle: seq<nat>, i: nat, levels: nat)
    requires i < |cycle|
    requires forall j :: 0 <= j < |cycle| ==> Uses(defs, cycle[j], cycle[if j + 1 < |cycle| then j + 1 else 0])
    ensures !Nests(defs, levels, BodyFrom(defs, cycle[i], 1))
    decreases levels
  {
    var next := if i + 1 < |cycle| then i + 1 else 0;
    assert Uses(defs, cycle[i], cycle[next]);
    if levels > 0 {
      CycleNeverNests(defs, cycle, next, levels - 1);
    }
    DeepUse(defs, levels, BodyFrom(defs, cycle[i], 1), cycle[next]);
  }

  predicate Uses(defs: seq<Definition>, p: nat, q: nat) {
    Inserted(defs, Ref(q)) && Ref(q) in BodyFrom(defs, p, 1)
  }

  /** A text that uses a name which does not nest one level down does not nest itself. */
  lemma {:induction false} DeepUse(defs: seq<Definition>, levels: nat, tokens: seq<Token>, q: nat)
    requires Inserted(defs, Ref(q)) && Ref(q) in tokens
    requires levels > 0 ==> !Nests(defs, levels - 1, BodyFrom(defs, q, 1))
    ensures !Nests(defs, levels, tokens)
    decreases |tokens|
  {
    if tokens[0] != Ref(q) {
      DeepUse(defs, levels, tokens[1..], q);
    }
  }
}
