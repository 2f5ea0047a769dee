/**
 Where things stand on the printed page: line ends and the padding after them, what `nest`
 and `align` do to the lines of a document, and that the work list of the renderer means no
 more than laying out its documents one after the other.
 */
module PrettyIndent {
  import opened PrettyDoc

  // ------------------------------------------------------------------------ the page

  function Append(a: SimpleDoc, b: SimpleDoc): SimpleDoc {
    match a
    case SEmpty => b
    case SText(text, next) => SText(text, Append(next, b))
    case SLine(indent, next) => SLine(indent, Append(next, b))
  }

  predicate OneLine(s: SimpleDoc) {
    match s
    case SEmpty => true
    case SText(_, next) => OneLine(next)
    case SLine(_, _) => false
  }

  ghost predicate IsPadding(pad: string, indent: int) {
    |pad| == (if indent > 0 then indent else 0) && forall k :: 0 <= k < |pad| ==> pad[k] == ' '
  }

  lemma {:induction false} SpacesArePadding(n: int)
    ensures IsPadding(Spaces(n), n)
    decreases n
  {
    if n > 0 {
      SpacesArePadding(n - 1);
      assert Spaces(n) == " " + Spaces(n - 1);
    }
  }

  /**
   What follows the first line of a layout: if anything is printed there at all, a line end
   and as many spaces as the line is indented come before it; otherwise nothing.
   */
  lemma {:induction false} LineEndsArePrinted(a: SimpleDoc, indent: int, b: SimpleDoc) returns (pad: string)
    requires OneLine(a)
    ensures IsPadding(pad, indent)
    ensures Layout(Append(a, SLine(indent, b))) ==
      if Layout(b) == "" then Layout(a) else Layout(a) + "\n" + pad + Layout(b)
  {
    match a
    case SEmpty =>
      pad := Spaces(indent);
      SpacesArePadding(indent);
      assert "" + "\n" + pad + Layout(b) == "\n" + pad + Layout(b);
    case SText(text, next) =>
      pad := LineEndsArePrinted(next, indent, b);
      assert text + (Layout(next) + "\n" + pad + Layout(b)) == (text + Layout(next)) + "\n" + pad + Layout(b);
  }

  // --------------------------------------------------------------- one after the other

  lemma {:induction false} AppendAssociates(a: SimpleDoc, b: SimpleDoc, c: SimpleDoc)
    ensures Append(Append(a, b), c) == Append(a, Append(b, c))
  {
    if !a.SEmpty? {
      AppendAssociates(a.next, b, c);
    }
  }

  lemma {:induction false} AppendEmpty(a: SimpleDoc)
    ensures Append(a, SEmpty) == a
  {
    if !a.SEmpty? {
      AppendEmpty(a.next);
    }
  }

  /** Every line of a layout indented by j more. */
  function IndentBy(j: int, s: SimpleDoc): SimpleDoc {
    match s
    case SEmpty => SEmpty
    case SText(text, next) => SText(text, IndentBy(j, next))
    case SLine(indent, next) => SLine(indent + j, IndentBy(j, next))
  }

  predicate AlignFree(d: Doc) {
    match d
    case EmptyDoc => true
    case TextDoc(_) => true
    case LineDoc(_) => true
    case ConsDoc(first, second) => AlignFree(first) && AlignFree(second)
    case NestDoc(_, inner) => AlignFree(inner)
    case UnionDoc(long, short) => AlignFree(long) && AlignFree(short)
    case AlignDoc(_) => false
  }

  predicate AllAlignFree(docs: Docs) {
    docs.Nil? || (AlignFree(docs.doc) && AllAlignFree(docs.tail))
  }

  /** Every document of a work list based j further to the right. */
  function MovedBy(j: int, docs: Docs): (moved: Docs)
    ensures Weight(moved) == Weight(docs)
  {
    if docs.Nil? then Nil else On(docs.indent + j, docs.doc, MovedBy(j, docs.tail))
  }

  /** Without alignment, layouts do not depend on the column, and a base further to the right indents every line. */
  lemma {:induction false} MovedIsIndented(column: int, column': int, j: int, docs: Docs, cs: Choices)
    requires AllAlignFree(docs)
    ensures Lay(column', MovedBy(j, docs), cs) == IndentBy(j, Lay(column, docs, cs))
    decreases Weight(docs)
  {
    match docs
    case Nil =>
    case On(i, EmptyDoc, tail) => MovedIsIndented(column, column', j, tail, cs);
    case On(i, ConsDoc(first, second), tail) =>
      MovedIsIndented(column, column', j, Both(i, first, second, tail), cs);
      assert MovedBy(j, Both(i, first, second, tail)) == Both(i + j, first, second, MovedBy(j, tail));
    case On(i, NestDoc(k, inner), tail) =>
      MovedIsIndented(column, column', j, On(i + k, inner, tail), cs);
      assert MovedBy(j, On(i + k, inner, tail)) == On(i + j + k, inner, MovedBy(j, tail));
    case On(i, TextDoc(text), tail) => MovedIsIndented(column + |text|, column' + |text|, j, tail, cs);
    case On(i, LineDoc(_), tail) => MovedIsIndented(i, i + j, j, tail, cs);
    case On(i, UnionDoc(l, s), tail) =>
      MovedIsIndented(column, column', j, On(i, if Pick(cs) then l else s, tail), Later(cs));
  }

  /** The column at which a layout that starts at a column ends. */
  function EndColumn(column: int, s: SimpleDoc): int
    decreases s
  {
    match s
    case SEmpty => column
    case SText(text, next) => EndColumn(column + |text|, next)
    case SLine(indent, next) => EndColumn(indent, next)
  }

  lemma {:induction false} EndOfAppended(column: int, a: SimpleDoc, b: SimpleDoc)
    ensures EndColumn(column, Append(a, b)) == EndColumn(EndColumn(column, a), b)
    decreases a
  {
    match a
    case SEmpty =>
    case SText(text, next) => EndOfAppended(column + |text|, next, b);
    case SLine(indent, next) => EndOfAppended(indent, next, b);
  }

  /** The choices left over after a document has been laid out. */
  function LeftOver(d: Doc, cs: Choices): Choices {
    match d
    case EmptyDoc => cs
    case TextDoc(_) => cs
    case LineDoc(_) => cs
    case ConsDoc(first, second) => LeftOver(second, LeftOver(first, cs))
    case NestDoc(_, inner) => LeftOver(inner, cs)
    case UnionDoc(long, short) => LeftOver(if Pick(cs) then long else short, Later(cs))
    case AlignDoc(inner) => LeftOver(inner, cs)
  }

  /** A document alone, at column and base i. */
  function Alone(column: int, i: int, d: Doc, cs: Choices): SimpleDoc { Lay(column, On(i, d, Nil), cs) }

  /** What a work list lays out, given that its first document alone is laid out as s. */
  function Followed(column: int, s: SimpleDoc, tail: Docs, cs: Choices): SimpleDoc {
    Append(s, Lay(EndColumn(column, s), tail, cs))
  }

  /** The work list lays out its first document, and then the others from where that ends, with the choices left over. */
  lemma {:induction false} DocumentsFollowEachOther(column: int, i: int, d: Doc, tail: Docs, cs: Choices)
    ensures Lay(column, On(i, d, tail), cs) == Followed(column, Alone(column, i, d, cs), tail, LeftOver(d, cs))
    decreases Size(d)
  {
    match d
    case EmptyDoc => assert Alone(column, i, d, cs) == Lay(column, Nil, cs) == SEmpty;
    case TextDoc(text) =>
      var rest := Lay(column + |text|, tail, cs);
      assert Alone(column, i, d, cs) == SText(text, Lay(column + |text|, Nil, cs)) == SText(text, SEmpty);
      assert Append(SText(text, SEmpty), rest) == SText(text, Append(SEmpty, rest));
      assert EndColumn(column, SText(text, SEmpty)) == EndColumn(column + |text|, SEmpty);
    case LineDoc(_) =>
      var rest := Lay(i, tail, cs);
      assert Alone(column, i, d, cs) == SLine(i, Lay(i, Nil, cs)) == SLine(i, SEmpty);
      assert Append(SLine(i, SEmpty), rest) == SLine(i, Append(SEmpty, rest));
      assert EndColumn(column, SLine(i, SEmpty)) == EndColumn(i, SEmpty);
    case ConsDoc(first, second) => ConsFollows(column, i, first, second, tail, cs);
    case NestDoc(j, inner) => DocumentsFollowEachOther(column, i + j, inner, tail, cs);
    case UnionDoc(long, short) =>
      DocumentsFollowEachOther(column, i, if Pick(cs) then long else short, tail, Later(cs));
    case AlignDoc(inner) => DocumentsFollowEachOther(column, column, inner, tail, cs);
  }

  lemma {:induction false} ConsFollows(column: int, i: int, first: Doc, second: Doc, tail: Docs, cs: Choices)
    ensures Lay(column, On(i, ConsDoc(first, second), tail), cs) ==
      Followed(column, Alone(column, i, ConsDoc(first, second), cs), tail, LeftOver(ConsDoc(first, second), cs))
    decreases Size(first) + Size(second)
  {
    var cs', a := LeftOver(first, cs), Alone(column, i, first, cs);
    var middle := EndColumn(column, a);
    var b := Alone(middle, i, second, cs');
    DocumentsFollowEachOther(column, i, first, On(i, second, tail), cs);
    DocumentsFollowEachOther(column, i, first, On(i, second, Nil), cs);
    DocumentsFollowEachOther(middle, i, second, tail, cs');
    EndOfAppended(column, a, b);
    AppendAssociates(a, b, Lay(EndColumn(middle, b), tail, LeftOver(second, cs')));
  }

  // ------------------------------------------------------------------- nest and align

  /** `nest` indents every line of its document by j more, and nothing before or after it. */
  lemma {:induction false} NestIndents(column: int, i: int, j: int, d: Doc, tail: Docs, cs: Choices)
    requires AlignFree(d)
    ensures Lay(column, On(i, NestDoc(j, d), tail), cs) ==
      Followed(column, IndentBy(j, Alone(column, i, d, cs)), tail, LeftOver(d, cs))
  {
    DocumentsFollowEachOther(column, i, NestDoc(j, d), tail, cs);
    MovedIsIndented(column, column, j, On(i, d, Nil), cs);
  }

  /** `align` is `nest` by the distance from the base to the column where the document starts. */
  lemma {:induction false} AlignIsNest(column: int, i: int, d: Doc, tail: Docs, cs: Choices)
    ensures Lay(column, On(i, AlignDoc(d), tail), cs) == Lay(column, On(i, NestDoc(column - i, d), tail), cs)
  {
  }

  /** `align` indents every line of its document to the column where the document starts. */
  lemma {:induction false} AlignIndents(column: int, i: int, d: Doc, tail: Docs, cs: Choices)
    requires AlignFree(d)
    ensures Lay(column, On(i, AlignDoc(d), tail), cs) ==
      Followed(column, IndentBy(column, Alone(column, 0, d, cs)), tail, LeftOver(d, cs))
  {
    DocumentsFollowEachOther(column, column, d, tail, cs);
    MovedIsIndented(column, column, column, On(0, d, Nil), cs);
  }

  /** Every line is indented by n. */
  predicate LinesAt(s: SimpleDoc, n: int) {
    match s
    case SEmpty => true
    case SText(_, next) => LinesAt(next, n)
    case SLine(indent, next) => indent == n && LinesAt(next, n)
  }

  predicate NestFree(d: Doc) {
    match d
    case EmptyDoc => true
    case TextDoc(_) => true
    case LineDoc(_) => true
    case ConsDoc(first, second) => NestFree(first) && NestFree(second)
    case NestDoc(_, _) => false
    case UnionDoc(long, short) => NestFree(long) && NestFree(short)
    case AlignDoc(_) => false
  }

  predicate AllNestFreeAt(docs: Docs, n: int) {
    docs.Nil? || (docs.indent == n && NestFree(docs.doc) && AllNestFreeAt(docs.tail, n))
  }

  /** Without `nest` and `align`, lines start at the base. */
  lemma {:induction false} LinesStartAtBase(column: int, docs: Docs, n: int, cs: Choices)
    requires AllNestFreeAt(docs, n)
    ensures LinesAt(Lay(column, docs, cs), n)
    decreases Weight(docs)
  {
    match docs
    case Nil =>
    case On(i, EmptyDoc, tail) => LinesStartAtBase(column, tail, n, cs);
    case On(i, ConsDoc(first, second), tail) => LinesStartAtBase(column, Both(i, first, second, tail), n, cs);
    case On(i, TextDoc(text), tail) => LinesStartAtBase(column + |text|, tail, n, cs);
    case On(i, LineDoc(_), tail) => LinesStartAtBase(i, tail, n, cs);
    case On(i, UnionDoc(l, s), tail) => LinesStartAtBase(column, On(i, if Pick(cs) then l else s, tail), n, Later(cs));
  }

  /** What is rendered for a nested document at any width: the layout of the document for some choices, indented. */
  lemma {:induction false} RenderedNest(width: int, j: int, d: Doc) returns (cs: Choices)
    requires AlignFree(d)
    ensures Pretty(width, NestDoc(j, d)) == IndentBy(j, Alone(0, 0, d, cs))
  {
    cs := Greedy(width, 0, On(0, NestDoc(j, d), Nil));
    BestIsALayout(width, 0, On(0, NestDoc(j, d), Nil));
    NestIndents(0, 0, j, d, Nil, cs);
    AppendEmpty(IndentBy(j, Alone(0, 0, d, cs)));
  }
}
