/** The renderers that cut a layout short, and the one that prints everything on one line. */
module PrettyTruncate {
  import opened PrettyDoc
  import opened PrettyFlatten

  // ------------------------------------------------------------------- truncation

  datatype CountUnit = Characters | Words | Lines

  function FirstLines(max: int, s: SimpleDoc): SimpleDoc
    decreases s
  {
    match s
    case SText(text, next) => if max >= 1 then SText(text, FirstLines(max, next)) else SEmpty
    case SLine(indent, next) => if max > 1 then SLine(indent, FirstLines(max - 1, next)) else SEmpty
    case SEmpty => SEmpty
  }

  /** The length of a text without its spaces. */
  function Solid(text: string): nat {
    if text == "" then 0 else (if text[0] == ' ' then 0 else 1) + Solid(text[1..])
  }

  function FirstChars(max: int, s: SimpleDoc): SimpleDoc
    decreases s
  {
    match s
    case SText(text, next) => if max >= Solid(text) then SText(text, FirstChars(max - |text|, next)) else SEmpty
    case SLine(indent, next) => if max > 0 then SLine(indent, FirstChars(max, next)) else SEmpty
    case SEmpty => SEmpty
  }

  /** `text.trim.isEmpty`: nothing above the space character. */
  predicate TrimsAway(text: string) {
    forall i :: 0 <= i < |text| ==> text[i] <= ' '
  }

  function FirstWords(max: int, s: SimpleDoc): SimpleDoc
    decreases s
  {
    match s
    case SText(text, next) =>
      if max <= 0 then SEmpty
      else if TrimsAway(text) then SText(text, FirstWords(max, next))
      else SText(text, FirstWords(max - 1, next))
    case SLine(indent, next) => if max > 0 then SLine(indent, FirstWords(max, next)) else SEmpty
    case SEmpty => SEmpty
  }

  function Truncate(unit: CountUnit, max: int, s: SimpleDoc): SimpleDoc {
    match unit
    case Lines => FirstLines(max, s)
    case Characters => FirstChars(max, s)
    case Words => FirstWords(max, s)
  }

  function Min(a: int, b: int): int { if a < b then a else b }

  lemma {:induction false} SolidIsShorter(text: string)
    ensures Solid(text) <= |text|
  {
    if text != "" {
      SolidIsShorter(text[1..]);
    }
  }

  /** The length without spaces grows with every character but the space. */
  lemma {:induction false} SolidCounts(text: string, c: char)
    ensures Solid(text + [c]) == Solid(text) + if c == ' ' then 0 else 1
  {
    if text == "" {
      assert text + [c] == [c];
      assert Solid([c]) == (if c == ' ' then 0 else 1) + Solid([c][1..]);
    } else {
      SolidCounts(text[1..], c);
      assert (text + [c])[1..] == text[1..] + [c];
    }
  }

  /** With what limits anything is left at all: a text needs room for itself, a line end for something after it. */
  lemma SomethingIsLeftExactly(unit: CountUnit, max: int, s: SimpleDoc)
    requires !s.SEmpty?
    ensures s.SLine? ==> (Truncate(unit, max, s).SEmpty? <==> max < if unit.Lines? then 2 else 1)
    ensures s.SText? ==> (Truncate(unit, max, s).SEmpty? <==> max < if unit.Characters? then Solid(s.text) else 1)
  {
  }

  lemma {:induction false} FirstLinesCompose(m: int, n: int, s: SimpleDoc)
    ensures FirstLines(m, FirstLines(n, s)) == FirstLines(Min(m, n), s)
    decreases s
  {
    match s
    case SEmpty =>
    case SText(_, next) => FirstLinesCompose(m, n, next);
    case SLine(_, next) => FirstLinesCompose(m - 1, n - 1, next);
  }

  lemma {:induction false} FirstCharsCompose(m: int, n: int, s: SimpleDoc)
    ensures FirstChars(m, FirstChars(n, s)) == FirstChars(Min(m, n), s)
    decreases s
  {
    match s
    case SEmpty =>
    case SText(text, next) => FirstCharsCompose(m - |text|, n - |text|, next);
    case SLine(_, next) => FirstCharsCompose(m, n, next);
  }

  lemma {:induction false} FirstWordsCompose(m: int, n: int, s: SimpleDoc)
    ensures FirstWords(m, FirstWords(n, s)) == FirstWords(Min(m, n), s)
    decreases s
  {
    match s
    case SEmpty =>
    case SText(text, next) => FirstWordsCompose(m, n, next); FirstWordsCompose(m - 1, n - 1, next);
    case SLine(_, next) => FirstWordsCompose(m, n, next);
  }

  /** Truncating twice is truncating once, by the smaller limit. */
  lemma TruncateComposes(unit: CountUnit, m: int, n: int, s: SimpleDoc)
    ensures Truncate(unit, m, Truncate(unit, n, s)) == Truncate(unit, Min(m, n), s)
  {
    FirstLinesCompose(m, n, s);
    FirstCharsCompose(m, n, s);
    FirstWordsCompose(m, n, s);
  }

  /** What a unit counts: lines begun (none in an empty document), characters other than spaces, words. */
  function Count(unit: CountUnit, s: SimpleDoc): nat {
    match s
    case SEmpty => 0
    case SText(text, next) =>
      (match unit
       case Lines => if next.SEmpty? then 1 else Count(unit, next)
       case Characters => Solid(text) + Count(unit, next)
       case Words => (if TrimsAway(text) then 0 else 1) + Count(unit, next))
    case SLine(_, next) =>
      if unit.Lines? then 1 + (if next.SEmpty? then 1 else Count(unit, next)) else Count(unit, next)
  }

  /** a is the beginning of b. */
  predicate StartOf(a: SimpleDoc, b: SimpleDoc) {
    match a
    case SEmpty => true
    case SText(text, next) => b.SText? && b.text == text && StartOf(next, b.next)
    case SLine(indent, next) => b.SLine? && b.indent == indent && StartOf(next, b.next)
  }

  lemma {:induction false} FirstLinesWithin(max: int, s: SimpleDoc)
    ensures StartOf(FirstLines(max, s), s)
    ensures Count(Lines, FirstLines(max, s)) <= if max > 0 then max else 0
    decreases s
  {
    match s
    case SEmpty =>
    case SText(_, next) => FirstLinesWithin(max, next);
    case SLine(_, next) => FirstLinesWithin(max - 1, next);
  }

  lemma {:induction false} FirstCharsWithin(max: int, s: SimpleDoc)
    ensures StartOf(FirstChars(max, s), s)
    ensures Count(Characters, FirstChars(max, s)) <= if max > 0 then max else 0
    decreases s
  {
    match s
    case SEmpty =>
    case SText(text, next) => SolidIsShorter(text); FirstCharsWithin(max - |text|, next);
    case SLine(_, next) => FirstCharsWithin(max, next);
  }

  lemma {:induction false} FirstWordsWithin(max: int, s: SimpleDoc)
    ensures StartOf(FirstWords(max, s), s)
    ensures Count(Words, FirstWords(max, s)) <= if max > 0 then max else 0
    decreases s
  {
    match s
    case SEmpty =>
    case SText(_, next) => FirstWordsWithin(max, next); FirstWordsWithin(max - 1, next);
    case SLine(_, next) => FirstWordsWithin(max, next);
  }

  /** A truncated document is a beginning of the original and stays within the limit. */
  lemma TruncateStaysWithin(unit: CountUnit, max: int, s: SimpleDoc)
    ensures StartOf(Truncate(unit, max, s), s)
    ensures Count(unit, Truncate(unit, max, s)) <= if max > 0 then max else 0
  {
    FirstLinesWithin(max, s);
    FirstCharsWithin(max, s);
    FirstWordsWithin(max, s);
  }

  function Max(a: int, b: int): int { if a > b then a else b }

  /** What an element asks of the limit to be kept. */
  function Asks(unit: CountUnit, s: SimpleDoc): nat
    requires !s.SEmpty?
  {
    if unit.Characters? && s.SText? then Solid(s.text) else if unit.Lines? && s.SLine? then 2 else 1
  }

  /** What an element takes off the limit for those after it; of a text in characters, that is all of it. */
  function Uses(unit: CountUnit, s: SimpleDoc): nat
    requires !s.SEmpty?
  {
    match unit
    case Lines => if s.SLine? then 1 else 0
    case Characters => if s.SText? then |s.text| else 0
    case Words => if s.SText? && !TrimsAway(s.text) then 1 else 0
  }

  /** The smallest limit that leaves a document that is not empty whole. */
  function Needs(unit: CountUnit, s: SimpleDoc): nat
    requires !s.SEmpty?
  {
    if s.next.SEmpty? then Asks(unit, s) else Max(Asks(unit, s), Uses(unit, s) + Needs(unit, s.next))
  }

  lemma TruncateUnfolds(unit: CountUnit, max: int, s: SimpleDoc)
    requires !s.SEmpty?
    ensures Truncate(unit, max, s) ==
      if max < Asks(unit, s) then SEmpty
      else
        var next := Truncate(unit, max - Uses(unit, s), s.next);
        if s.SText? then SText(s.text, next) else SLine(s.indent, next)
  {
  }

  /** A document is left whole exactly by the limits from what it needs upwards. */
  lemma {:induction false} TruncateKeepsExactly(unit: CountUnit, max: int, s: SimpleDoc)
    ensures Truncate(unit, max, s) == s <==> s.SEmpty? || max >= Needs(unit, s)
    decreases s
  {
    if !s.SEmpty? {
      TruncateUnfolds(unit, max, s);
      TruncateKeepsExactly(unit, max - Uses(unit, s), s.next);
    }
  }

  /** The documented promise: a document whose count is within the limit is not cut. */
  ghost predicate CutsOnlyOverCount(unit: CountUnit, s: SimpleDoc) {
    forall max: int :: Count(unit, s) <= max ==> Truncate(unit, max, s) == s
  }

  /** It is kept exactly for the documents that need no more than they count. */
  lemma CutsOnlyOverCountExactly(unit: CountUnit, s: SimpleDoc)
    ensures CutsOnlyOverCount(unit, s) <==> s.SEmpty? || Needs(unit, s) <= Count(unit, s)
  {
    TruncateKeepsExactly(unit, Count(unit, s), s);
    forall max: int | Count(unit, s) <= max && (s.SEmpty? || Needs(unit, s) <= Count(unit, s))
      ensures Truncate(unit, max, s) == s
    {
      TruncateKeepsExactly(unit, max, s);
    }
    assert CutsOnlyOverCount(unit, s) ==> Truncate(unit, Count(unit, s), s) == s;
  }

  /** By lines every document keeps it. */
  lemma {:induction false} LinesNeedTheirCount(s: SimpleDoc)
    ensures s.SEmpty? || Needs(Lines, s) == Count(Lines, s)
    ensures CutsOnlyOverCount(Lines, s)
  {
    if !s.SEmpty? {
      NeedsInLines(s);
    }
    CutsOnlyOverCountExactly(Lines, s);
  }

  lemma {:induction false} NeedsInLines(s: SimpleDoc)
    requires !s.SEmpty?
    ensures Needs(Lines, s) == Count(Lines, s) >= 1
  {
    if !s.next.SEmpty? {
      NeedsInLines(s.next);
    }
  }

  lemma {:induction false} StartOfTruncated(unit: CountUnit, max: int, p: SimpleDoc, s: SimpleDoc)
    requires StartOf(p, s)
    ensures StartOf(Truncate(unit, max, p), Truncate(unit, max, s))
    decreases p
  {
    if !p.SEmpty? {
      TruncateUnfolds(unit, max, p);
      TruncateUnfolds(unit, max, s);
      StartOfTruncated(unit, max - Uses(unit, p), p.next, s.next);
    } else {
      assert Truncate(unit, max, p) == SEmpty;
    }
  }

  /** What is left is the longest beginning of the document that the limit leaves whole. */
  lemma {:induction false} TruncateIsLongest(unit: CountUnit, max: int, p: SimpleDoc, s: SimpleDoc)
    requires StartOf(p, s) && (p.SEmpty? || Needs(unit, p) <= max)
    ensures StartOf(p, Truncate(unit, max, s))
    ensures Truncate(unit, max, s).SEmpty? || Needs(unit, Truncate(unit, max, s)) <= max
  {
    TruncateKeepsExactly(unit, max, p);
    StartOfTruncated(unit, max, p, s);
    TruncateComposes(unit, max, max, s);
    TruncateKeepsExactly(unit, max, Truncate(unit, max, s));
  }

  /** Texts of spaces are no words; a text with a letter in it is one. */
  lemma {:induction false} WordsAreCounted(text: string, next: SimpleDoc, k: nat)
    requires k < |text| && text[k] > ' '
    ensures Count(Words, SText(text, next)) == 1 + Count(Words, next)
    ensures Count(Words, SText(Spaces(k), next)) == Count(Words, next)
  {
    BlanksTrimAway(k);
  }

  lemma {:induction false} BlanksTrimAway(n: nat)
    ensures TrimsAway(Spaces(n))
  {
    if n > 0 {
      BlanksTrimAway(n - 1);
    }
  }

  /** What a document needs is never less than what it counts; in words it is at most one more, in characters the spaces and one more. */
  lemma {:induction false} NeedsIsNearCount(unit: CountUnit, s: SimpleDoc)
    requires !s.SEmpty? && !unit.Lines?
    ensures Count(unit, s) <= Needs(unit, s)
    ensures Needs(unit, s) <= 1 + if unit.Words? then Count(unit, s) else TextLength(s)
    decreases s
  {
    if s.SText? {
      SolidIsShorter(s.text);
    }
    if !s.next.SEmpty? {
      NeedsIsNearCount(unit, s.next);
    }
  }

  function TextLength(s: SimpleDoc): nat {
    match s
    case SEmpty => 0
    case SText(text, next) => |text| + TextLength(next)
    case SLine(_, next) => TextLength(next)
  }

  /** By characters it fails for one letter behind a space, and by words for a word at the end of a line. */
  lemma SpacesAndLineEndsTakeRoom()
    ensures
      var d := SText(" ", SText("a", SEmpty));
      Count(Characters, d) == 1 && Truncate(Characters, 1, d) == SText(" ", SEmpty)
    ensures
      var d := SText("a", SLine(0, SEmpty));
      Count(Words, d) == 1 && Truncate(Words, 1, d) == SText("a", SEmpty)
  {
    assert Solid("a") == 1 + Solid("a"[1..]);
    assert Solid(" ") == Solid(" "[1..]);
    assert !TrimsAway("a") by { assert "a"[0] > ' '; }
  }

  // --------------------------------------------------------------------- one line

  /** The work list scanner of the compact renderer; it stops for good at an empty document. */
  function Scan(docs: Docs): SimpleDoc
    decreases Weight(docs)
  {
    match docs
    case Nil => SEmpty
    case On(_, EmptyDoc, tail) => SEmpty
    case On(_, TextDoc(text), tail) => SText(text, Scan(tail))
    case On(i, LineDoc(repl), tail) => Scan(On(i, repl, tail))
    case On(i, ConsDoc(first, second), tail) => Scan(Both(i, first, second, tail))
    case On(i, NestDoc(_, inner), tail) => Scan(On(i, inner, tail))
    case On(i, UnionDoc(long, _), tail) => Scan(On(i, long, tail))
    case On(i, AlignDoc(inner), tail) => Scan(On(i, inner, tail))
  }

  function Compact(d: Doc): SimpleDoc { Scan(On(0, d, Nil)) }

  /** Whether flattening d leaves an empty document somewhere. */
  predicate Stops(d: Doc) {
    match d
    case EmptyDoc => true
    case TextDoc(_) => false
    case LineDoc(repl) => Stops(repl)
    case ConsDoc(first, second) => Stops(first) || Stops(second)
    case NestDoc(_, inner) => Stops(inner)
    case UnionDoc(long, _) => Stops(long)
    case AlignDoc(inner) => Stops(inner)
  }

  /** The text of a document with every line replaced, however deep, and the long branch of every union taken. */
  function FullText(d: Doc): string {
    match d
    case EmptyDoc => ""
    case TextDoc(text) => text
    case LineDoc(repl) => FullText(repl)
    case ConsDoc(first, second) => FullText(first) + FullText(second)
    case NestDoc(_, inner) => FullText(inner)
    case UnionDoc(long, _) => FullText(long)
    case AlignDoc(inner) => FullText(inner)
  }

  function FullTexts(docs: Docs): string {
    if docs.Nil? then "" else FullText(docs.doc) + FullTexts(docs.tail)
  }

  /** The full text is what flattening over and over ends in: flattening keeps it, and without lines it is the flat text. */
  lemma {:induction false} FlattenKeepsFullText(d: Doc)
    ensures FullText(Flatten(d)) == FullText(d)
    ensures Repls(LineFree, d) ==> FullText(d) == FlatText(d)
  {
    match d
    case LineDoc(repl) => if LineFree(repl) { FullTextOfLineFree(repl); }
    case ConsDoc(first, second) => FlattenKeepsFullText(first); FlattenKeepsFullText(second);
    case NestDoc(_, inner) => FlattenKeepsFullText(inner);
    case UnionDoc(long, _) => FlattenKeepsFullText(long);
    case AlignDoc(inner) => FlattenKeepsFullText(inner);
    case _ =>
  }

  lemma {:induction false} FullTextOfLineFree(d: Doc)
    requires LineFree(d)
    ensures FullText(d) == LongText(d)
  {
    match d
    case ConsDoc(first, second) => FullTextOfLineFree(first); FullTextOfLineFree(second);
    case NestDoc(_, inner) => FullTextOfLineFree(inner);
    case UnionDoc(long, _) => FullTextOfLineFree(long);
    case AlignDoc(inner) => FullTextOfLineFree(inner);
    case _ =>
  }

  /** The full text behind the first empty document. */
  function Dropped(d: Doc): string {
    match d
    case EmptyDoc => ""
    case TextDoc(_) => ""
    case LineDoc(repl) => Dropped(repl)
    case ConsDoc(first, second) => if Stops(first) then Dropped(first) + FullText(second) else Dropped(second)
    case NestDoc(_, inner) => Dropped(inner)
    case UnionDoc(long, _) => Dropped(long)
    case AlignDoc(inner) => Dropped(inner)
  }

  function AllDropped(docs: Docs): string {
    if docs.Nil? then ""
    else if Stops(docs.doc) then Dropped(docs.doc) + FullTexts(docs.tail)
    else AllDropped(docs.tail)
  }

  lemma UnfoldedTexts(i: int, first: Doc, second: Doc, tail: Docs)
    ensures FullTexts(Both(i, first, second, tail)) == FullTexts(On(i, ConsDoc(first, second), tail))
  {
    assert FullTexts(On(i, second, tail)) == FullText(second) + FullTexts(tail);
    assert FullText(first) + (FullText(second) + FullTexts(tail)) == (FullText(first) + FullText(second)) + FullTexts(tail);
  }

  lemma UnfoldedDrops(i: int, first: Doc, second: Doc, tail: Docs)
    ensures AllDropped(Both(i, first, second, tail)) == AllDropped(On(i, ConsDoc(first, second), tail))
  {
    var rest := On(i, second, tail);
    assert FullTexts(rest) == FullText(second) + FullTexts(tail);
    if Stops(first) {
      assert Dropped(first) + (FullText(second) + FullTexts(tail)) == (Dropped(first) + FullText(second)) + FullTexts(tail);
    } else {
      assert AllDropped(rest) == if Stops(second) then Dropped(second) + FullTexts(tail) else AllDropped(tail);
    }
  }

  lemma {:induction false} ScanDropsTheRest(docs: Docs)
    ensures Layout(Scan(docs)) + AllDropped(docs) == FullTexts(docs)
    decreases Weight(docs)
  {
    match docs
    case Nil =>
    case On(_, EmptyDoc, tail) =>
      assert Layout(Scan(docs)) + AllDropped(docs) == AllDropped(docs);
    case On(_, TextDoc(text), tail) =>
      ScanDropsTheRest(tail);
      assert text + Layout(Scan(tail)) + AllDropped(tail) == text + (Layout(Scan(tail)) + AllDropped(tail));
    case On(i, LineDoc(repl), tail) =>
      ScanDropsTheRest(On(i, repl, tail));
    case On(i, ConsDoc(first, second), tail) =>
      ScanDropsTheRest(Both(i, first, second, tail));
      UnfoldedTexts(i, first, second, tail);
      UnfoldedDrops(i, first, second, tail);
    case On(i, NestDoc(_, inner), tail) => ScanDropsTheRest(On(i, inner, tail));
    case On(i, UnionDoc(long, _), tail) => ScanDropsTheRest(On(i, long, tail));
    case On(i, AlignDoc(inner), tail) => ScanDropsTheRest(On(i, inner, tail));
  }

  /**
   The compact renderer prints the full text of a document less what follows the first empty
   document, hence all of it exactly if nothing follows one. If the line replacements contain no
   lines, the full text is the flat text.
   */
  lemma CompactPrintsFlatTextExactly(d: Doc)
    ensures Layout(Compact(d)) + Dropped(d) == FullText(d)
    ensures Layout(Compact(d)) == FullText(d) <==> Dropped(d) == ""
    ensures Repls(LineFree, d) ==> (Layout(Compact(d)) == FlatText(d) <==> Dropped(d) == "")
  {
    var docs := On(0, d, Nil);
    ScanDropsTheRest(docs);
    NothingDropped(d);
    FlattenKeepsFullText(d);
    assert AllDropped(docs) == Dropped(d);
    assert FullTexts(docs) == FullText(d) + FullTexts(Nil);
  }

  lemma {:induction false} NothingDropped(d: Doc)
    ensures !Stops(d) ==> Dropped(d) == ""
  {
    match d
    case LineDoc(repl) => NothingDropped(repl);
    case ConsDoc(first, second) => NothingDropped(first); NothingDropped(second);
    case NestDoc(_, inner) => NothingDropped(inner);
    case UnionDoc(long, _) => NothingDropped(long);
    case AlignDoc(inner) => NothingDropped(inner);
    case _ =>
  }

  /** Two words joined by a `linebreak`: the compact renderer loses the second. */
  lemma CompactLosesTextAfterLinebreak()
    ensures
      var d := ConsDoc(TextDoc("a"), ConsDoc(LineDoc(EmptyDoc), TextDoc("b")));
      Layout(Compact(d)) == "a" && FlatText(d) == "ab"
  {
    var d := ConsDoc(TextDoc("a"), ConsDoc(LineDoc(EmptyDoc), TextDoc("b")));
    CompactPrintsFlatTextExactly(d);
    assert Dropped(d) == "b";
    assert FullText(d) == "a" + "b" == "ab";
    assert Layout(Compact(d)) + "b" == "a" + "b";
    assert (Layout(Compact(d)) + "b")[..1] == Layout(Compact(d));
  }
}
