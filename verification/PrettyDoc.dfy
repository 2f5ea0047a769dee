/**
 Documents, simple documents and the width-aware renderer of the pretty printer.
 A document denotes one layout for every way of choosing between the branches of its
 unions; the renderer makes these choices greedily, from left to right.
 */
module PrettyDoc {

  datatype Doc =
    | EmptyDoc
    | TextDoc(text: string)
    | LineDoc(repl: Doc)
    | ConsDoc(first: Doc, second: Doc)
    | NestDoc(indent: int, inner: Doc)
    | UnionDoc(long: Doc, short: Doc)
    | AlignDoc(inner: Doc)

  datatype SimpleDoc = SEmpty | SText(text: string, next: SimpleDoc) | SLine(indent: int, next: SimpleDoc)

  predicate Fits(s: SimpleDoc, width: int) {
    match s
    case SText(text, next) => Fits(next, width - |text|)
    case _ => width >= 0
  }

  function Spaces(n: int): string {
    if n <= 0 then "" else " " + Spaces(n - 1)
  }

  function Layout(s: SimpleDoc): string {
    match s
    case SEmpty => ""
    case SText(text, next) => text + Layout(next)
    case SLine(indent, next) => if Layout(next) == "" then "" else "\n" + Spaces(indent) + Layout(next)
  }

  // -------------------------------------------------------------------- renderer

  /** The work list of the renderer: documents still to be laid out, each with its indentation. */
  datatype Docs = Nil | On(indent: int, doc: Doc, tail: Docs)

  function Size(d: Doc): nat {
    match d
    case EmptyDoc => 1
    case TextDoc(_) => 1
    case LineDoc(repl) => 1 + Size(repl)
    case ConsDoc(first, second) => 1 + Size(first) + Size(second)
    case NestDoc(_, inner) => 1 + Size(inner)
    case UnionDoc(long, short) => 1 + Size(long) + Size(short)
    case AlignDoc(inner) => 1 + Size(inner)
  }

  /** The measure that shrinks with every step of the renderer. */
  function Weight(docs: Docs): nat {
    if docs.Nil? then 0 else Size(docs.doc) + Weight(docs.tail)
  }

  /** A concatenation, unfolded on the work list. */
  function Both(i: int, first: Doc, second: Doc, tail: Docs): (docs: Docs)
    ensures Weight(docs) == Size(first) + Size(second) + Weight(tail)
  {
    assert Weight(On(i, second, tail)) == Size(second) + Weight(tail);
    On(i, first, On(i, second, tail))
  }

  function Best(width: int, column: int, docs: Docs): SimpleDoc
    decreases Weight(docs)
  {
    match docs
    case Nil => SEmpty
    case On(i, EmptyDoc, tail) => Best(width, column, tail)
    case On(i, ConsDoc(first, second), tail) => Best(width, column, Both(i, first, second, tail))
    case On(i, NestDoc(j, inner), tail) => Best(width, column, On(i + j, inner, tail))
    case On(i, TextDoc(text), tail) => SText(text, Best(width, column + |text|, tail))
    case On(i, LineDoc(_), tail) => SLine(i, Best(width, i, tail))
    case On(i, UnionDoc(l, s), tail) =>
      Better(width, column, Best(width, column, On(i, l, tail)), Best(width, column, On(i, s, tail)))
    case On(i, AlignDoc(inner), tail) => Best(width, column, On(column, inner, tail))
  }

  function Better(width: int, column: int, d1: SimpleDoc, d2: SimpleDoc): SimpleDoc {
    if Fits(d1, width - column) then d1 else d2
  }

  function Pretty(width: int, d: Doc): SimpleDoc {
    Best(width, 0, On(0, d, Nil))
  }

  // --------------------------------------------------------------------- meaning

  /** One choice per union, in the order the unions are met; a missing choice takes the short branch. */
  type Choices = seq<bool>

  function Pick(cs: Choices): bool { cs != [] && cs[0] }

  function Later(cs: Choices): Choices { if cs == [] then [] else cs[1..] }

  /** The layout that a sequence of choices selects. */
  function Lay(column: int, docs: Docs, cs: Choices): SimpleDoc
    decreases Weight(docs)
  {
    match docs
    case Nil => SEmpty
    case On(i, EmptyDoc, tail) => Lay(column, tail, cs)
    case On(i, ConsDoc(first, second), tail) => Lay(column, Both(i, first, second, tail), cs)
    case On(i, NestDoc(j, inner), tail) => Lay(column, On(i + j, inner, tail), cs)
    case On(i, TextDoc(text), tail) => SText(text, Lay(column + |text|, tail, cs))
    case On(i, LineDoc(_), tail) => SLine(i, Lay(i, tail, cs))
    case On(i, UnionDoc(l, s), tail) => Lay(column, On(i, if Pick(cs) then l else s, tail), Later(cs))
    case On(i, AlignDoc(inner), tail) => Lay(column, On(column, inner, tail), cs)
  }

  /** The choices the renderer makes. */
  function Greedy(width: int, column: int, docs: Docs): Choices
    decreases Weight(docs)
  {
    match docs
    case Nil => []
    case On(i, EmptyDoc, tail) => Greedy(width, column, tail)
    case On(i, ConsDoc(first, second), tail) => Greedy(width, column, Both(i, first, second, tail))
    case On(i, NestDoc(j, inner), tail) => Greedy(width, column, On(i + j, inner, tail))
    case On(i, TextDoc(text), tail) => Greedy(width, column + |text|, tail)
    case On(i, LineDoc(_), tail) => Greedy(width, i, tail)
    case On(i, UnionDoc(l, s), tail) =>
      var fits := Fits(Best(width, column, On(i, l, tail)), width - column);
      [fits] + Greedy(width, column, On(i, if fits then l else s, tail))
    case On(i, AlignDoc(inner), tail) => Greedy(width, column, On(column, inner, tail))
  }

  /** The renderer returns a layout that the document denotes. */
  lemma {:induction false} BestIsALayout(width: int, column: int, docs: Docs)
    ensures Best(width, column, docs) == Lay(column, docs, Greedy(width, column, docs))
    decreases Weight(docs)
  {
    match docs
    case Nil =>
    case On(i, EmptyDoc, tail) => BestIsALayout(width, column, tail);
    case On(i, ConsDoc(first, second), tail) => BestIsALayout(width, column, Both(i, first, second, tail));
    case On(i, NestDoc(j, inner), tail) => BestIsALayout(width, column, On(i + j, inner, tail));
    case On(i, TextDoc(text), tail) => BestIsALayout(width, column + |text|, tail);
    case On(i, LineDoc(_), tail) => BestIsALayout(width, i, tail);
    case On(i, UnionDoc(l, s), tail) =>
      var fits := Fits(Best(width, column, On(i, l, tail)), width - column);
      var rest := On(i, if fits then l else s, tail);
      BestIsALayout(width, column, rest);
      assert ([fits] + Greedy(width, column, rest))[1..] == Greedy(width, column, rest);
    case On(i, AlignDoc(inner), tail) => BestIsALayout(width, column, On(column, inner, tail));
  }

  // ------------------------------------------------------------------ optimality

  /** If any choices make the first line fit, it fits in the rendered layout. */
  lemma {:induction false} FirstLineIsOptimal(width: int, column: int, docs: Docs, cs: Choices)
    requires Fits(Lay(column, docs, cs), width - column)
    ensures Fits(Best(width, column, docs), width - column)
    decreases Weight(docs)
  {
    match docs
    case Nil =>
    case On(i, EmptyDoc, tail) => FirstLineIsOptimal(width, column, tail, cs);
    case On(i, ConsDoc(first, second), tail) => FirstLineIsOptimal(width, column, Both(i, first, second, tail), cs);
    case On(i, NestDoc(j, inner), tail) => FirstLineIsOptimal(width, column, On(i + j, inner, tail), cs);
    case On(i, TextDoc(text), tail) => FirstLineIsOptimal(width, column + |text|, tail, cs);
    case On(i, LineDoc(_), tail) =>
    case On(i, UnionDoc(l, s), tail) =>
      FirstLineIsOptimal(width, column, On(i, if Pick(cs) then l else s, tail), Later(cs));
    case On(i, AlignDoc(inner), tail) => FirstLineIsOptimal(width, column, On(column, inner, tail), cs);
  }

  /** Line k of the layout exists and ends within the width. */
  predicate LineFits(s: SimpleDoc, width: int, column: int, k: nat) {
    if k == 0 then Fits(s, width - column)
    else match s
      case SEmpty => false
      case SText(text, next) => LineFits(next, width, column + |text|, k)
      case SLine(indent, next) => LineFits(next, width, indent, k - 1)
  }

  /** How many choices have been made when line k begins. */
  function ChoicesBefore(column: int, docs: Docs, cs: Choices, k: nat): nat
    decreases Weight(docs)
  {
    if k == 0 then 0
    else match docs
      case Nil => 0
      case On(i, EmptyDoc, tail) => ChoicesBefore(column, tail, cs, k)
      case On(i, ConsDoc(first, second), tail) => ChoicesBefore(column, Both(i, first, second, tail), cs, k)
      case On(i, NestDoc(j, inner), tail) => ChoicesBefore(column, On(i + j, inner, tail), cs, k)
      case On(i, TextDoc(text), tail) => ChoicesBefore(column + |text|, tail, cs, k)
      case On(i, LineDoc(_), tail) => ChoicesBefore(i, tail, cs, k - 1)
      case On(i, UnionDoc(l, s), tail) => 1 + ChoicesBefore(column, On(i, if Pick(cs) then l else s, tail), Later(cs), k)
      case On(i, AlignDoc(inner), tail) => ChoicesBefore(column, On(column, inner, tail), cs, k)
  }

  /** The two sequences make the same first n choices. */
  ghost predicate Agree(cs: Choices, ds: Choices, n: nat) {
    n <= |cs| && n <= |ds| && cs[..n] == ds[..n]
  }

  lemma AgreeTail(cs: Choices, ds: Choices, n: nat)
    requires Agree(cs, ds, n + 1)
    ensures Pick(cs) == Pick(ds) && Agree(Later(cs), Later(ds), n)
  {
    assert cs[0] == cs[..n + 1][0] && ds[0] == ds[..n + 1][0];
    assert cs[1..][..n] == cs[..n + 1][1..] && ds[1..][..n] == ds[..n + 1][1..];
  }

  /**
   Line by line, the renderer does as well as any choices that agree with it on the
   lines before: if they make line k fit, so does the renderer.
   */
  lemma {:induction false} EveryLineIsOptimal(width: int, column: int, docs: Docs, cs: Choices, k: nat)
    requires Agree(cs, Greedy(width, column, docs), ChoicesBefore(column, docs, Greedy(width, column, docs), k))
    requires LineFits(Lay(column, docs, cs), width, column, k)
    ensures LineFits(Best(width, column, docs), width, column, k)
    decreases Weight(docs)
  {
    if k == 0 {
      FirstLineIsOptimal(width, column, docs, cs);
    } else {
      match docs
      case On(i, EmptyDoc, tail) => EveryLineIsOptimal(width, column, tail, cs, k);
      case On(i, ConsDoc(first, second), tail) => EveryLineIsOptimal(width, column, Both(i, first, second, tail), cs, k);
      case On(i, NestDoc(j, inner), tail) => EveryLineIsOptimal(width, column, On(i + j, inner, tail), cs, k);
      case On(i, TextDoc(text), tail) => EveryLineIsOptimal(width, column + |text|, tail, cs, k);
      case On(i, LineDoc(_), tail) => EveryLineIsOptimal(width, i, tail, cs, k - 1);
      case On(i, UnionDoc(l, s), tail) =>
        var greedy := Greedy(width, column, docs);
        var fits := Fits(Best(width, column, On(i, l, tail)), width - column);
        var rest := On(i, if fits then l else s, tail);
        assert Later(greedy) == Greedy(width, column, rest);
        AgreeTail(cs, greedy, ChoicesBefore(column, rest, Later(greedy), k));
        EveryLineIsOptimal(width, column, rest, Later(cs), k);
      case On(i, AlignDoc(inner), tail) => EveryLineIsOptimal(width, column, On(column, inner, tail), cs, k);
    }
  }

  /** The renderer has always made the choices that EveryLineIsOptimal asks others to agree with. */
  lemma {:induction false} GreedyIsLongEnough(width: int, column: int, docs: Docs, k: nat)
    ensures ChoicesBefore(column, docs, Greedy(width, column, docs), k) <= |Greedy(width, column, docs)|
    decreases Weight(docs)
  {
    if k > 0 {
      match docs
      case Nil =>
      case On(i, EmptyDoc, tail) => GreedyIsLongEnough(width, column, tail, k);
      case On(i, ConsDoc(first, second), tail) => GreedyIsLongEnough(width, column, Both(i, first, second, tail), k);
      case On(i, NestDoc(j, inner), tail) => GreedyIsLongEnough(width, column, On(i + j, inner, tail), k);
      case On(i, TextDoc(text), tail) => GreedyIsLongEnough(width, column + |text|, tail, k);
      case On(i, LineDoc(_), tail) => GreedyIsLongEnough(width, i, tail, k - 1);
      case On(i, UnionDoc(l, s), tail) =>
        var greedy := Greedy(width, column, docs);
        var fits := Fits(Best(width, column, On(i, l, tail)), width - column);
        var rest := On(i, if fits then l else s, tail);
        assert Later(greedy) == Greedy(width, column, rest);
        GreedyIsLongEnough(width, column, rest, k);
      case On(i, AlignDoc(inner), tail) => GreedyIsLongEnough(width, column, On(column, inner, tail), k);
    }
  }
}
