/**
 Flattening and grouping: what `flatten` removes, when it is idempotent, that groups
 never change the ink on the page, and when a group is printed on one line.
 */
module PrettyFlatten {
  import opened PrettyDoc

  function Flatten(d: Doc): Doc {
    match d
    case EmptyDoc => d
    case TextDoc(_) => d
    case LineDoc(repl) => repl
    case ConsDoc(first, second) => ConsDoc(Flatten(first), Flatten(second))
    case NestDoc(indent, inner) => NestDoc(indent, Flatten(inner))
    case UnionDoc(long, _) => Flatten(long)
    case AlignDoc(inner) => AlignDoc(Flatten(inner))
  }

  function Group(d: Doc): Doc { UnionDoc(Flatten(d), d) }

  // --------------------------------------------------------- what flatten removes

  predicate LineFree(d: Doc) {
    match d
    case EmptyDoc => true
    case TextDoc(_) => true
    case LineDoc(_) => false
    case ConsDoc(first, second) => LineFree(first) && LineFree(second)
    case NestDoc(_, inner) => LineFree(inner)
    case UnionDoc(long, short) => LineFree(long) && LineFree(short)
    case AlignDoc(inner) => LineFree(inner)
  }

  /** Neither lines nor unions. */
  predicate Flat(d: Doc) {
    match d
    case EmptyDoc => true
    case TextDoc(_) => true
    case LineDoc(_) => false
    case ConsDoc(first, second) => Flat(first) && Flat(second)
    case NestDoc(_, inner) => Flat(inner)
    case UnionDoc(_, _) => false
    case AlignDoc(inner) => Flat(inner)
  }

  /** P holds of the replacement of every line that `flatten` replaces. */
  predicate Repls(P: Doc -> bool, d: Doc) {
    match d
    case EmptyDoc => true
    case TextDoc(_) => true
    case LineDoc(repl) => P(repl)
    case ConsDoc(first, second) => Repls(P, first) && Repls(P, second)
    case NestDoc(_, inner) => Repls(P, inner)
    case UnionDoc(long, _) => Repls(P, long)
    case AlignDoc(inner) => Repls(P, inner)
  }

  lemma {:induction false} FlattenRemovesLines(d: Doc)
    requires Repls(LineFree, d)
    ensures LineFree(Flatten(d))
  {
    match d
    case ConsDoc(first, second) => FlattenRemovesLines(first); FlattenRemovesLines(second);
    case NestDoc(_, inner) => FlattenRemovesLines(inner);
    case UnionDoc(long, _) => FlattenRemovesLines(long);
    case AlignDoc(inner) => FlattenRemovesLines(inner);
    case _ =>
  }

  lemma {:induction false} FlattenKeepsReplLines(d: Doc)
    requires LineFree(Flatten(d))
    ensures Repls(LineFree, d)
  {
    match d
    case ConsDoc(first, second) => FlattenKeepsReplLines(first); FlattenKeepsReplLines(second);
    case NestDoc(_, inner) => FlattenKeepsReplLines(inner);
    case UnionDoc(long, _) => FlattenKeepsReplLines(long);
    case AlignDoc(inner) => FlattenKeepsReplLines(inner);
    case _ =>
  }

  /** `flatten` leaves no line behind exactly if the replacements it puts in contain none. */
  lemma FlattenRemovesLinesExactly(d: Doc)
    ensures LineFree(Flatten(d)) <==> Repls(LineFree, d)
  {
    if Repls(LineFree, d) {
      FlattenRemovesLines(d);
    } else if LineFree(Flatten(d)) {
      FlattenKeepsReplLines(d);
    }
  }

  lemma {:induction false} FlattenSize(d: Doc)
    ensures Size(Flatten(d)) <= Size(d)
  {
    match d
    case ConsDoc(first, second) => FlattenSize(first); FlattenSize(second);
    case NestDoc(_, inner) => FlattenSize(inner);
    case UnionDoc(long, _) => FlattenSize(long);
    case AlignDoc(inner) => FlattenSize(inner);
    case _ =>
  }

  /** The fixed points of `flatten` are the flat documents. */
  lemma {:induction false} FlattenFixed(d: Doc)
    ensures Flatten(d) == d <==> Flat(d)
  {
    match d
    case LineDoc(repl) => assert Size(repl) < Size(d);
    case ConsDoc(first, second) => FlattenFixed(first); FlattenFixed(second);
    case NestDoc(_, inner) => FlattenFixed(inner);
    case UnionDoc(long, _) => FlattenSize(long);
    case AlignDoc(inner) => FlattenFixed(inner);
    case _ =>
  }

  /** `flatten` is idempotent exactly on the documents whose line replacements are flat. */
  lemma {:induction false} FlattenIdempotentExactly(d: Doc)
    ensures Flatten(Flatten(d)) == Flatten(d) <==> Repls(Flat, d)
  {
    match d
    case LineDoc(repl) => FlattenFixed(repl);
    case ConsDoc(first, second) => FlattenIdempotentExactly(first); FlattenIdempotentExactly(second);
    case NestDoc(_, inner) => FlattenIdempotentExactly(inner);
    case UnionDoc(long, _) => FlattenIdempotentExactly(long);
    case AlignDoc(inner) => FlattenIdempotentExactly(inner);
    case _ =>
  }

  /** Replacements without lines are not enough: a grouped word as replacement takes two passes. */
  lemma LineFreeReplacementsAreNotEnough()
    ensures
      var d := LineDoc(Group(TextDoc("x")));
      && Grouped(d) && Repls(LineFree, d)
      && Flatten(Flatten(d)) != Flatten(d)
  {
    var d := LineDoc(Group(TextDoc("x")));
    assert Flatten(d) == UnionDoc(TextDoc("x"), TextDoc("x"));
  }

  // ------------------------------------------------------------------- same ink

  predicate IsSpace(c: char) { c == ' ' || c == '\n' || c == '\t' || c == '\r' }

  /** A text without its white space. */
  function Ink(s: string): string {
    if s == "" then "" else (if IsSpace(s[0]) then "" else [s[0]]) + Ink(s[1..])
  }

  lemma {:induction false} InkConcat(a: string, b: string)
    ensures Ink(a + b) == Ink(a) + Ink(b)
  {
    if a == "" {
      assert a + b == b;
    } else {
      InkConcat(a[1..], b);
      assert (a + b)[1..] == a[1..] + b;
      var head := if IsSpace(a[0]) then "" else [a[0]];
      calc {
        Ink(a + b);
        head + Ink(a[1..] + b);
        head + (Ink(a[1..]) + Ink(b));
        (head + Ink(a[1..])) + Ink(b);
      }
    }
  }

  lemma {:induction false} SpacesHaveNoInk(n: int)
    ensures Ink(Spaces(n)) == ""
    decreases n
  {
    if n > 0 {
      SpacesHaveNoInk(n - 1);
      assert Spaces(n)[1..] == Spaces(n - 1);
    }
  }

  /** The ink of a document, line breaks and groups aside. */
  function DocInk(d: Doc): string {
    match d
    case EmptyDoc => ""
    case TextDoc(text) => Ink(text)
    case LineDoc(_) => ""
    case ConsDoc(first, second) => DocInk(first) + DocInk(second)
    case NestDoc(_, inner) => DocInk(inner)
    case UnionDoc(_, short) => DocInk(short)
    case AlignDoc(inner) => DocInk(inner)
  }

  function DocsInk(docs: Docs): string {
    if docs.Nil? then "" else DocInk(docs.doc) + DocsInk(docs.tail)
  }

  /** Nothing but white space, however it is laid out. */
  predicate Blank(d: Doc) {
    match d
    case EmptyDoc => true
    case TextDoc(text) => Ink(text) == ""
    case LineDoc(repl) => Blank(repl)
    case ConsDoc(first, second) => Blank(first) && Blank(second)
    case NestDoc(_, inner) => Blank(inner)
    case UnionDoc(long, short) => Blank(long) && Blank(short)
    case AlignDoc(inner) => Blank(inner)
  }

  /** Unions come from `group` only, and lines are replaced by white space. */
  predicate BlankGrouped(d: Doc) {
    match d
    case EmptyDoc => true
    case TextDoc(_) => true
    case LineDoc(repl) => Blank(repl)
    case ConsDoc(first, second) => BlankGrouped(first) && BlankGrouped(second)
    case NestDoc(_, inner) => BlankGrouped(inner)
    case UnionDoc(long, short) => long == Flatten(short) && BlankGrouped(short)
    case AlignDoc(inner) => BlankGrouped(inner)
  }

  /** Lines are replaced by white space, and both branches of every union have the same ink. */
  predicate SameInk(d: Doc) {
    match d
    case EmptyDoc => true
    case TextDoc(_) => true
    case LineDoc(repl) => Blank(repl)
    case ConsDoc(first, second) => SameInk(first) && SameInk(second)
    case NestDoc(_, inner) => SameInk(inner)
    case UnionDoc(long, short) => SameInk(long) && SameInk(short) && DocInk(long) == DocInk(short)
    case AlignDoc(inner) => SameInk(inner)
  }

  lemma {:induction false} BlankHasNoInk(d: Doc)
    requires Blank(d)
    ensures DocInk(d) == "" && SameInk(d)
  {
    match d
    case ConsDoc(first, second) => BlankHasNoInk(first); BlankHasNoInk(second);
    case NestDoc(_, inner) => BlankHasNoInk(inner);
    case UnionDoc(long, short) => BlankHasNoInk(long); BlankHasNoInk(short);
    case AlignDoc(inner) => BlankHasNoInk(inner);
    case _ =>
  }

  lemma {:induction false} FlattenKeepsInk(d: Doc)
    requires SameInk(d)
    ensures SameInk(Flatten(d)) && DocInk(Flatten(d)) == DocInk(d)
  {
    match d
    case LineDoc(repl) => BlankHasNoInk(repl);
    case ConsDoc(first, second) => FlattenKeepsInk(first); FlattenKeepsInk(second);
    case NestDoc(_, inner) => FlattenKeepsInk(inner);
    case UnionDoc(long, _) => FlattenKeepsInk(long);
    case AlignDoc(inner) => FlattenKeepsInk(inner);
    case _ =>
  }

  lemma {:induction false} GroupsHaveSameInk(d: Doc)
    requires BlankGrouped(d)
    ensures SameInk(d)
  {
    match d
    case ConsDoc(first, second) => GroupsHaveSameInk(first); GroupsHaveSameInk(second);
    case NestDoc(_, inner) => GroupsHaveSameInk(inner);
    case UnionDoc(_, short) => GroupsHaveSameInk(short); FlattenKeepsInk(short);
    case AlignDoc(inner) => GroupsHaveSameInk(inner);
    case _ =>
  }

  predicate AllSameInk(docs: Docs) {
    docs.Nil? || (SameInk(docs.doc) && AllSameInk(docs.tail))
  }

  lemma LineInk(indent: int, next: SimpleDoc)
    ensures Ink(Layout(SLine(indent, next))) == Ink(Layout(next))
  {
    if Layout(next) != "" {
      InkConcat("\n" + Spaces(indent), Layout(next));
      InkConcat("\n", Spaces(indent));
      SpacesHaveNoInk(indent);
      assert Ink("\n") == Ink("\n"[1..]);
    }
  }

  lemma TextInk(text: string, next: SimpleDoc)
    ensures Ink(Layout(SText(text, next))) == Ink(text) + Ink(Layout(next))
  {
    InkConcat(text, Layout(next));
  }

  lemma InkUnfolds(i: int, first: Doc, second: Doc, tail: Docs)
    ensures DocsInk(Both(i, first, second, tail)) == DocsInk(On(i, ConsDoc(first, second), tail))
  {
    assert DocsInk(On(i, second, tail)) == DocInk(second) + DocsInk(tail);
    assert DocInk(first) + (DocInk(second) + DocsInk(tail)) == (DocInk(first) + DocInk(second)) + DocsInk(tail);
  }

  /** Whatever is chosen, the ink on the page is that of the document. */
  lemma {:induction false} LayoutsHaveSameInk(column: int, docs: Docs, cs: Choices)
    requires AllSameInk(docs)
    ensures Ink(Layout(Lay(column, docs, cs))) == DocsInk(docs)
    decreases Weight(docs)
  {
    match docs
    case Nil =>
    case On(i, EmptyDoc, tail) => LayoutsHaveSameInk(column, tail, cs);
    case On(i, ConsDoc(first, second), tail) =>
      LayoutsHaveSameInk(column, Both(i, first, second, tail), cs);
      InkUnfolds(i, first, second, tail);
    case On(i, NestDoc(j, inner), tail) => LayoutsHaveSameInk(column, On(i + j, inner, tail), cs);
    case On(i, TextDoc(text), tail) =>
      LayoutsHaveSameInk(column + |text|, tail, cs);
      TextInk(text, Lay(column + |text|, tail, cs));
    case On(i, LineDoc(_), tail) =>
      LayoutsHaveSameInk(i, tail, cs);
      LineInk(i, Lay(i, tail, cs));
    case On(i, UnionDoc(l, s), tail) =>
      LayoutsHaveSameInk(column, On(i, if Pick(cs) then l else s, tail), Later(cs));
    case On(i, AlignDoc(inner), tail) => LayoutsHaveSameInk(column, On(column, inner, tail), cs);
  }

  /** Page width decides where white space goes, never what else is printed. */
  lemma WidthNeverChangesInk(width: int, width': int, d: Doc)
    requires BlankGrouped(d)
    ensures Ink(Layout(Pretty(width, d))) == DocInk(d) == Ink(Layout(Pretty(width', d)))
  {
    var docs := On(0, d, Nil);
    GroupsHaveSameInk(d);
    BestIsALayout(width, 0, docs);
    BestIsALayout(width', 0, docs);
    LayoutsHaveSameInk(0, docs, Greedy(width, 0, docs));
    LayoutsHaveSameInk(0, docs, Greedy(width', 0, docs));
    assert DocsInk(docs) == DocInk(d) + DocsInk(Nil);
  }

  // ---------------------------------------------------------- the flat text of a document

  /** Unions come from `group` only, and lines are replaced by line-free documents. */
  predicate Grouped(d: Doc) {
    match d
    case EmptyDoc => true
    case TextDoc(_) => true
    case LineDoc(repl) => LineFree(repl) && Grouped(repl)
    case ConsDoc(first, second) => Grouped(first) && Grouped(second)
    case NestDoc(_, inner) => Grouped(inner)
    case UnionDoc(long, short) => long == Flatten(short) && Grouped(short)
    case AlignDoc(inner) => Grouped(inner)
  }

  /** The texts of a document in order, taking the long branch of every union. */
  function LongText(d: Doc): string {
    match d
    case EmptyDoc => ""
    case TextDoc(text) => text
    case LineDoc(_) => ""
    case ConsDoc(first, second) => LongText(first) + LongText(second)
    case NestDoc(_, inner) => LongText(inner)
    case UnionDoc(long, _) => LongText(long)
    case AlignDoc(inner) => LongText(inner)
  }

  function FlatText(d: Doc): string { LongText(Flatten(d)) }

  function FlatTexts(docs: Docs): string {
    if docs.Nil? then "" else FlatText(docs.doc) + FlatTexts(docs.tail)
  }

  /** Both branches of every union flatten to the same text. */
  predicate SameFlat(d: Doc) {
    match d
    case EmptyDoc => true
    case TextDoc(_) => true
    case LineDoc(repl) => LineFree(repl) && SameFlat(repl)
    case ConsDoc(first, second) => SameFlat(first) && SameFlat(second)
    case NestDoc(_, inner) => SameFlat(inner)
    case UnionDoc(long, short) => SameFlat(long) && SameFlat(short) && FlatText(long) == FlatText(short)
    case AlignDoc(inner) => SameFlat(inner)
  }

  lemma {:induction false} FlatTextOfLineFree(d: Doc)
    requires LineFree(d)
    ensures FlatText(d) == LongText(d)
  {
    match d
    case ConsDoc(first, second) => FlatTextOfLineFree(first); FlatTextOfLineFree(second);
    case NestDoc(_, inner) => FlatTextOfLineFree(inner);
    case UnionDoc(long, _) => FlatTextOfLineFree(long);
    case AlignDoc(inner) => FlatTextOfLineFree(inner);
    case _ =>
  }

  lemma {:induction false} FlattenKeepsSameFlat(d: Doc)
    requires SameFlat(d)
    ensures SameFlat(Flatten(d)) && LineFree(Flatten(d))
  {
    match d
    case ConsDoc(first, second) => FlattenKeepsSameFlat(first); FlattenKeepsSameFlat(second);
    case NestDoc(_, inner) => FlattenKeepsSameFlat(inner);
    case UnionDoc(long, _) => FlattenKeepsSameFlat(long);
    case AlignDoc(inner) => FlattenKeepsSameFlat(inner);
    case _ =>
  }

  lemma {:induction false} GroupsFlattenAlike(d: Doc)
    requires Grouped(d)
    ensures SameFlat(d)
  {
    match d
    case LineDoc(repl) => GroupsFlattenAlike(repl);
    case ConsDoc(first, second) => GroupsFlattenAlike(first); GroupsFlattenAlike(second);
    case NestDoc(_, inner) => GroupsFlattenAlike(inner);
    case UnionDoc(long, short) =>
      GroupsFlattenAlike(short);
      FlattenKeepsSameFlat(short);
      FlatTextOfLineFree(long);
    case AlignDoc(inner) => GroupsFlattenAlike(inner);
    case _ =>
  }

  predicate AllSameFlat(docs: Docs) {
    docs.Nil? || (SameFlat(docs.doc) && AllSameFlat(docs.tail))
  }

  function FirstLineLength(s: SimpleDoc): nat {
    match s
    case SText(text, next) => |text| + FirstLineLength(next)
    case _ => 0
  }

  lemma {:induction false} FirstLinesAreShort(column: int, docs: Docs, cs: Choices)
    requires AllSameFlat(docs)
    ensures FirstLineLength(Lay(column, docs, cs)) <= |FlatTexts(docs)|
    decreases Weight(docs)
  {
    match docs
    case Nil =>
    case On(i, EmptyDoc, tail) => FirstLinesAreShort(column, tail, cs);
    case On(i, ConsDoc(first, second), tail) =>
      FirstLinesAreShort(column, Both(i, first, second, tail), cs);
      assert FlatTexts(On(i, second, tail)) == FlatText(second) + FlatTexts(tail);
    case On(i, NestDoc(j, inner), tail) => FirstLinesAreShort(column, On(i + j, inner, tail), cs);
    case On(i, TextDoc(text), tail) => FirstLinesAreShort(column + |text|, tail, cs);
    case On(i, LineDoc(_), tail) =>
    case On(i, UnionDoc(l, s), tail) =>
      FirstLinesAreShort(column, On(i, if Pick(cs) then l else s, tail), Later(cs));
    case On(i, AlignDoc(inner), tail) => FirstLinesAreShort(column, On(column, inner, tail), cs);
  }

  /** No layout of a grouped document has a first line longer than the flattened document. */
  lemma FlattenedIsLongest(d: Doc, cs: Choices)
    requires Grouped(d)
    ensures FirstLineLength(Lay(0, On(0, d, Nil), cs)) <= |FlatText(d)|
  {
    GroupsFlattenAlike(d);
    FirstLinesAreShort(0, On(0, d, Nil), cs);
    assert FlatTexts(On(0, d, Nil)) == FlatText(d) + FlatTexts(Nil);
  }

  /** s prints a text without line ends, and then what rest prints. */
  ghost predicate PrintsBefore(s: SimpleDoc, text: string, rest: SimpleDoc) {
    Layout(s) == text + Layout(rest) && FirstLineLength(s) == |text| + FirstLineLength(rest)
  }

  lemma {:induction false} PrintsBoth(a: SimpleDoc, text: string, b: SimpleDoc, text': string, c: SimpleDoc)
    requires PrintsBefore(a, text, b) && PrintsBefore(b, text', c)
    ensures PrintsBefore(a, text + text', c)
  {
    assert text + (text' + Layout(c)) == (text + text') + Layout(c);
  }

  lemma {:induction false} FitsBefore(s: SimpleDoc, text: string, rest: SimpleDoc, room: int)
    requires PrintsBefore(s, text, rest)
    ensures Fits(s, room) <==> Fits(rest, room - |text|)
  {
    FitsIfShort(s, room);
    FitsIfShort(rest, room - |text|);
  }

  lemma {:induction false} UnionIsBetter(width: int, column: int, i: int, long: Doc, short: Doc, tail: Docs)
    ensures
      var l, s := Best(width, column, On(i, long, tail)), Best(width, column, On(i, short, tail));
      Best(width, column, On(i, UnionDoc(long, short), tail)) == if Fits(l, width - column) then l else s
  {
  }

  lemma {:induction false} FitsIfShort(s: SimpleDoc, room: int)
    ensures Fits(s, room) <==> FirstLineLength(s) <= room
  {
    if s.SText? {
      FitsIfShort(s.next, room - |s.text|);
    }
  }

  /** The document prints its one text and shifts what follows to the right by its length. */
  ghost predicate Shifts(width: int, column: int, i: int, d: Doc, tail: Docs) {
    PrintsBefore(Best(width, column, On(i, d, tail)), LongText(d), Best(width, column + |LongText(d)|, tail))
  }

  lemma {:induction false} ConsShifts(width: int, column: int, i: int, first: Doc, second: Doc, tail: Docs)
    requires Shifts(width, column, i, first, On(i, second, tail))
    requires Shifts(width, column + |LongText(first)|, i, second, tail)
    ensures Shifts(width, column, i, ConsDoc(first, second), tail)
  {
    var rest, middle := On(i, second, tail), column + |LongText(first)|;
    PrintsBoth(Best(width, column, On(i, first, rest)), LongText(first), Best(width, middle, rest),
      LongText(second), Best(width, middle + |LongText(second)|, tail));
  }

  lemma {:induction false} UnionShifts(width: int, column: int, i: int, long: Doc, short: Doc, tail: Docs)
    requires Shifts(width, column, i, long, tail) && Shifts(width, column, i, short, tail)
    requires LongText(long) == LongText(short)
    ensures Shifts(width, column, i, UnionDoc(long, short), tail)
  {
    UnionIsBetter(width, column, i, long, short, tail);
  }

  lemma {:induction false} LineFreeShifts(width: int, column: int, i: int, d: Doc, tail: Docs)
    requires SameFlat(d) && LineFree(d)
    ensures Shifts(width, column, i, d, tail)
    decreases d
  {
    match d
    case EmptyDoc =>
    case TextDoc(_) =>
    case ConsDoc(first, second) =>
      LineFreeShifts(width, column, i, first, On(i, second, tail));
      LineFreeShifts(width, column + |LongText(first)|, i, second, tail);
      ConsShifts(width, column, i, first, second, tail);
    case NestDoc(j, inner) => LineFreeShifts(width, column, i + j, inner, tail);
    case UnionDoc(long, short) =>
      assert LongText(long) == LongText(short) by {
        FlatTextOfLineFree(long);
        FlatTextOfLineFree(short);
      }
      LineFreeShifts(width, column, i, long, tail);
      LineFreeShifts(width, column, i, short, tail);
      UnionShifts(width, column, i, long, short, tail);
    case AlignDoc(inner) => LineFreeShifts(width, column, column, inner, tail);
  }

  /**
   A group anywhere in a document: it prints exactly its flat text if that text, with what
   follows it up to the next line end, fits in the rest of the line; otherwise it prints as if
   it were not grouped.
   */
  lemma GroupPrintsFlatIfItFits(width: int, column: int, i: int, d: Doc, tail: Docs)
    requires Grouped(d)
    ensures
      var after := Best(width, column + |FlatText(d)|, tail);
      Layout(Best(width, column, On(i, Group(d), tail))) ==
      if Fits(after, width - column - |FlatText(d)|)
      then FlatText(d) + Layout(after)
      else Layout(Best(width, column, On(i, d, tail)))
  {
    var flat := Best(width, column, On(i, Flatten(d), tail));
    var after := Best(width, column + |FlatText(d)|, tail);
    assert PrintsBefore(flat, FlatText(d), after) by {
      GroupsFlattenAlike(d);
      FlattenKeepsSameFlat(d);
      LineFreeShifts(width, column, i, Flatten(d), tail);
    }
    FitsBefore(flat, FlatText(d), after, width - column);
    UnionIsBetter(width, column, i, Flatten(d), d, tail);
  }

  /** In particular a group that is the whole document is printed on one line exactly when its flat text fits the page. */
  lemma GroupAlonePrintsFlatIfItFits(width: int, d: Doc)
    requires Grouped(d)
    ensures Layout(Pretty(width, Group(d))) ==
      if |FlatText(d)| <= width then FlatText(d) else Layout(Pretty(width, d))
  {
    GroupPrintsFlatIfItFits(width, 0, 0, d, Nil);
    assert FlatText(d) + Layout(SEmpty) == FlatText(d);
  }
}
