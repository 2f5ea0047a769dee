/** The entries of the call log, and the search for one of them from the back. */
module LogEntries {
  import opened Options

  /** A log entry; `id` stands for the address of the entry object, and grows with every new entry. */
  datatype Entry = Entry(id: nat, name: string)

  ghost predicate Ordered(es: seq<Entry>) {
    forall i, j :: 0 <= i < j < |es| ==> es[i].id < es[j].id
  }

  /** Where the search from the back meets the entry. */
  function Find(es: seq<Entry>, id: nat): (r: Option<nat>)
    ensures r.Some? ==> r.value < |es| && es[r.value].id == id
    ensures r.None? ==> forall i :: 0 <= i < |es| ==> es[i].id != id
  {
    if es == [] then None
    else if es[|es| - 1].id == id then Some(|es| - 1)
    else Find(es[..|es| - 1], id)
  }

  /** The log after the entry's call has ended: the entry is deleted if its name is filtered. */
  function Without(es: seq<Entry>, id: nat, filters: seq<string>): seq<Entry> {
    match Find(es, id)
    case None => es
    case Some(i) => if es[i].name in filters then es[..i] + es[i + 1..] else es
  }

  /** In a log in order there is only one place to find an entry. */
  lemma {:induction false} FoundAt(es: seq<Entry>, id: nat, k: nat)
    requires Ordered(es) && k < |es| && es[k].id == id
    ensures Find(es, id) == Some(k)
  {
  }

  /** After any entries added behind it, an entry is found where it was put. */
  lemma {:induction false} AcceptedIsFound(before: seq<Entry>, e: Entry, after: seq<Entry>)
    requires Ordered(after) && before + [e] <= after
    ensures |before| < |after| && after[|before|] == e && Find(after, e.id) == Some(|before|)
  {
    assert after[|before|] == (before + [e])[|before|];
    FoundAt(after, e.id, |before|);
  }

  ghost predicate Below(es: seq<Entry>, next: nat) {
    forall i :: 0 <= i < |es| ==> es[i].id < next
  }

  lemma {:induction false} WithoutKeepsOrder(es: seq<Entry>, id: nat, filters: seq<string>, next: nat)
    requires Ordered(es) && Below(es, next)
    ensures Ordered(Without(es, id, filters)) && Below(Without(es, id, filters), next)
    ensures |Without(es, id, filters)| <= |es|
  {
    if Find(es, id).Some? {
      DeleteKeepsOrder(es, Find(es, id).value, next);
    }
  }

  lemma {:induction false} DeleteKeepsOrder(es: seq<Entry>, k: nat, next: nat)
    requires Ordered(es) && Below(es, next) && k < |es|
    ensures Ordered(es[..k] + es[k + 1..]) && Below(es[..k] + es[k + 1..], next)
  {
    var es' := es[..k] + es[k + 1..];
    assert forall i :: 0 <= i < |es'| ==> es'[i] == if i < k then es[i] else es[i + 1];
  }

  /** No other entry is deleted. */
  lemma {:induction false} WithoutKeepsOthers(es: seq<Entry>, id: nat, filters: seq<string>, other: nat)
    requires Find(es, other).Some? && other != id
    ensures Find(Without(es, id, filters), other).Some?
  {
    if Find(es, id).Some? {
      DeleteKeepsOthers(es, Find(es, id).value, Find(es, other).value);
    }
  }

  lemma {:induction false} DeleteKeepsOthers(es: seq<Entry>, k: nat, j: nat)
    requires k < |es| && j < |es| && j != k
    ensures Find(es[..k] + es[k + 1..], es[j].id).Some?
  {
    var es' := es[..k] + es[k + 1..];
    assert es'[if j < k then j else j - 1] == es[j];
  }

  lemma {:induction false} WithoutIsPart(es: seq<Entry>, id: nat, filters: seq<string>, e: Entry)
    requires e in Without(es, id, filters)
    ensures e in es
  {
  }

  /** The entries with ids from lo up to, not including, hi. */
  function Segment(es: seq<Entry>, lo: nat, hi: nat): seq<Entry> {
    if es == [] then []
    else if lo <= es[|es| - 1].id < hi then Segment(es[..|es| - 1], lo, hi) + [es[|es| - 1]]
    else Segment(es[..|es| - 1], lo, hi)
  }

  lemma {:induction false} SegmentAppend(es: seq<Entry>, e: Entry, lo: nat, hi: nat)
    requires e.id >= hi
    ensures Segment(es + [e], lo, hi) == Segment(es, lo, hi)
  {
    assert (es + [e])[..|es|] == es;
  }

  lemma {:induction false} SegmentDelete(es: seq<Entry>, k: nat, lo: nat, hi: nat)
    requires k < |es| && !(lo <= es[k].id < hi)
    ensures Segment(es[..k] + es[k + 1..], lo, hi) == Segment(es, lo, hi)
  {
    var init := es[..|es| - 1];
    if k == |es| - 1 {
      assert es[..k] + es[k + 1..] == init;
    } else {
      var es' := es[..k] + es[k + 1..];
      assert es'[..|es'| - 1] == init[..k] + init[k + 1..];
      assert es'[|es'| - 1] == es[|es| - 1];
      SegmentDelete(init, k, lo, hi);
    }
  }

  lemma {:induction false} SegmentWithout(es: seq<Entry>, id: nat, filters: seq<string>, lo: nat, hi: nat)
    requires !(lo <= id < hi)
    ensures Segment(Without(es, id, filters), lo, hi) == Segment(es, lo, hi)
  {
    if Find(es, id).Some? {
      SegmentDelete(es, Find(es, id).value, lo, hi);
    }
  }

  /** The block stands in the log in one piece from position k, among entries older than lo and entries from hi on. */
  ghost predicate BlockAt(es: seq<Entry>, k: nat, block: seq<Entry>, lo: nat, hi: nat) {
    && k + |block| <= |es| && es[k..k + |block|] == block
    && (forall j :: 0 <= j < k ==> es[j].id < lo)
    && (forall j :: k + |block| <= j < |es| ==> es[j].id >= hi)
  }

  lemma {:induction false} SegmentIsBlock(es: seq<Entry>, lo: nat, hi: nat) returns (k: nat)
    requires Ordered(es) && lo <= hi
    ensures BlockAt(es, k, Segment(es, lo, hi), lo, hi)
  {
    k := 0;
    if es != [] {
      var init, last := es[..|es| - 1], es[|es| - 1];
      k := SegmentIsBlock(init, lo, hi);
      if last.id < lo {
        NoneInSegment(es, lo, hi);
        k := |es|;
      } else {
        assert init + [last] == es;
        BlockNext(init, last, k, Segment(init, lo, hi), lo, hi);
      }
    }
  }

  /** The next entry continues a block or comes after it. */
  lemma {:induction false} BlockNext(es: seq<Entry>, e: Entry, k: nat, block: seq<Entry>, lo: nat, hi: nat)
    requires Ordered(es + [e]) && e.id >= lo && BlockAt(es, k, block, lo, hi)
    ensures BlockAt(es + [e], k, if e.id < hi then block + [e] else block, lo, hi)
  {
    var es' := es + [e];
    assert es'[k..k + |block|] == es[k..k + |block|];
    if k + |block| < |es| {
      assert es[k + |block|].id >= hi;
      assert es'[k + |block|].id < es'[|es|].id;
    }
    if e.id < hi {
      assert k + |block| == |es|;
      assert es'[k..|es'|] == es[k..] + [e];
    }
  }

  lemma {:induction false} NoneInSegment(es: seq<Entry>, lo: nat, hi: nat)
    requires forall i :: 0 <= i < |es| ==> es[i].id < lo
    ensures Segment(es, lo, hi) == []
  {
    if es != [] {
      NoneInSegment(es[..|es| - 1], lo, hi);
    }
  }
}
