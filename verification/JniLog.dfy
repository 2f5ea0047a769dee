/**
 The bounded log of native calls. Calls nest, because iterating an instance runs
 callbacks that are logged too, and an entry whose name is filtered is only removed
 when its call ends, from wherever it then stands in the log.
 */
module JniLog {
  import opened Options
  import opened FuncNames
  import opened LogEntries

  // -------------------------------------------------------- what the log should hold

  /** A native call and the logged calls made while it runs. */
  datatype Call = Call(func: Address, inner: seq<Call>)

  /** Capacity, filters and registry, fixed while a forest of calls runs. */
  datatype Config = Config(maxSize: int, filters: seq<string>, names: Registry)

  predicate Filtered(cfg: Config, f: Address) {
    FuncName(cfg.names, f) in cfg.filters
  }

  /**
   The functions that stay in the log after a call that started with n entries present:
   the call itself unless it was refused or is filtered, then what stays of its inner
   calls. A filtered call takes up room while it is open.
   */
  function KeptCall(cfg: Config, c: Call, n: nat): seq<Address>
    decreases c, 1
  {
    if n >= cfg.maxSize then Kept(cfg, c.inner, n)
    else if Filtered(cfg, c.func) then Kept(cfg, c.inner, n + 1)
    else [c.func] + Kept(cfg, c.inner, n + 1)
  }

  function Kept(cfg: Config, cs: seq<Call>, n: nat): seq<Address>
    decreases cs, 0
  {
    if cs == [] then []
    else
      var first := KeptCall(cfg, cs[0], n);
      first + Kept(cfg, cs[1..], n + |first|)
  }

  // ------------------------------------------------------------------- how it grows

  /** The log grew from `before` to `after` by entries for the functions `fs`, in order. */
  ghost predicate GrewBy(r: Registry, before: seq<Entry>, after: seq<Entry>, fs: seq<Address>) {
    && before <= after && |after| == |before| + |fs|
    && forall i :: 0 <= i < |fs| ==> after[|before| + i].name == FuncName(r, fs[i])
  }

  lemma {:induction false} GrewTwice(r: Registry, a: seq<Entry>, b: seq<Entry>, c: seq<Entry>, fs: seq<Address>, gs: seq<Address>)
    requires GrewBy(r, a, b, fs) && GrewBy(r, b, c, gs)
    ensures GrewBy(r, a, c, fs + gs)
  {
    forall i | 0 <= i < |fs + gs| ensures c[|a| + i].name == FuncName(r, (fs + gs)[i]) {
      if i < |fs| {
        assert c[|a| + i] == b[|a| + i];
      } else {
        assert c[|b| + (i - |fs|)].name == FuncName(r, gs[i - |fs|]);
      }
    }
  }

  lemma {:induction false} GrewByOne(r: Registry, a: seq<Entry>, id: nat, f: Address)
    ensures GrewBy(r, a, a + [Entry(id, FuncName(r, f))], [f])
  {
  }

  /** Deleting the entry that was opened first leaves the growth of the calls inside it. */
  lemma {:induction false} GrewInside(r: Registry, a: seq<Entry>, e: Entry, b: seq<Entry>, fs: seq<Address>)
    requires GrewBy(r, a + [e], b, fs)
    ensures GrewBy(r, a, b[..|a|] + b[|a| + 1..], fs)
  {
    assert (a + [e])[..|a|] == a;
    forall i | 0 <= i < |fs| ensures (b[..|a|] + b[|a| + 1..])[|a| + i].name == FuncName(r, fs[i]) {
      assert (b[..|a|] + b[|a| + 1..])[|a| + i] == b[|a + [e]| + i];
    }
  }

  /** Closing an accepted entry after its inner calls leaves what should be kept of the call. */
  lemma {:induction false} GrewAround(cfg: Config, a: seq<Entry>, e: Entry, b: seq<Entry>, c: Call)
    requires |a| < cfg.maxSize && e.name == FuncName(cfg.names, c.func) && Ordered(b)
    requires GrewBy(cfg.names, a + [e], b, Kept(cfg, c.inner, |a| + 1))
    ensures Find(b, e.id) == Some(|a|)
    ensures GrewBy(cfg.names, a, Without(b, e.id, cfg.filters), KeptCall(cfg, c, |a|))
  {
    var inner := Kept(cfg, c.inner, |a| + 1);
    AcceptedIsFound(a, e, b);
    if Filtered(cfg, c.func) {
      GrewInside(cfg.names, a, e, b, inner);
    } else {
      GrewByOne(cfg.names, a, e.id, c.func);
      GrewTwice(cfg.names, a, a + [e], b, [c.func], inner);
    }
  }

  // ------------------------------------------------------------------------ the log

  class Log {
    var maxSize: int
    var entries: seq<Entry>
    var filters: seq<string>
    var nextId: nat

    ghost predicate Valid()
      reads this
    {
      Ordered(entries) && Below(entries, nextId)
    }

    ghost function Setup(r: Registry): Config
      reads this
    {
      Config(maxSize, filters, r)
    }

    constructor ()
      ensures Valid() && entries == [] && filters == [] && maxSize == 100
    {
      maxSize, entries, filters, nextId := 100, [], [], 0;
    }

    /** Opens an entry, unless the log is disabled or full. */
    method NewEntry() returns (entry: Option<nat>)
      requires Valid()
      modifies this`entries, this`nextId
      ensures Valid()
      ensures |old(entries)| >= maxSize ==> entry.None? && entries == old(entries) && nextId == old(nextId)
      ensures |old(entries)| < maxSize ==>
        && entry == Some(old(nextId)) && nextId == old(nextId) + 1
        && entries == old(entries) + [Entry(old(nextId), "")]
    {
      if maxSize == 0 {
        return None;
      }
      if |entries| >= maxSize {
        return None;
      }
      entries := entries + [Entry(nextId, "")];
      entry := Some(nextId);
      nextId := nextId + 1;
    }

    /** The start of a logged call: open an entry and write the function's name to it. */
    method Begin(r: Registry, f: Address) returns (entry: Option<nat>)
      requires Valid()
      modifies this`entries, this`nextId
      ensures Valid()
      ensures |old(entries)| >= maxSize ==> entry.None? && entries == old(entries) && nextId == old(nextId)
      ensures |old(entries)| < maxSize ==>
        && entry == Some(old(nextId)) && nextId == old(nextId) + 1
        && entries == old(entries) + [Entry(old(nextId), FuncName(r, f))]
    {
      entry := NewEntry();
      if entry.Some? {
        entries := entries[..|entries| - 1] + [Entry(entry.value, FuncName(r, f))];
      }
    }

    /** Looks for an entry from the back of the log. */
    method Search(id: nat) returns (i: nat)
      requires Find(entries, id).Some?
      ensures Find(entries, id) == Some(i)
    {
      i := |entries| - 1;
      ghost var rest := entries;
      while entries[i].id != id
        invariant i < |entries| && rest == entries[..i + 1]
        invariant Find(rest, id) == Find(entries, id)
        decreases i
      {
        rest := rest[..i];
        i := i - 1;
      }
    }

    /** The end of a logged call: a filtered entry is searched from the back and deleted. */
    method End(entry: Option<nat>)
      requires Valid()
      requires entry.Some? ==> Find(entries, entry.value).Some?
      modifies this`entries
      ensures Valid()
      ensures entries == if entry.Some? then Without(old(entries), entry.value, filters) else old(entries)
    {
      if entry.None? {
        return;
      }
      WithoutKeepsOrder(entries, entry.value, filters, nextId);
      var i := Search(entry.value);
      if entries[i].name in filters {
        entries := entries[..i] + entries[i + 1..];
      }
    }

    /** One call with everything it calls: the log grows by exactly what should be kept of it. */
    method RunCall(r: Registry, c: Call)
      requires Valid()
      modifies this`entries, this`nextId
      ensures Valid() && nextId >= old(nextId)
      ensures GrewBy(r, old(entries), entries, KeptCall(Setup(r), c, |old(entries)|))
      decreases c, 1
    {
      ghost var before := entries;
      ghost var row := Entry(nextId, FuncName(r, c.func));
      var entry := Begin(r, c.func);
      Run(r, c.inner);
      if entry.Some? {
        GrewAround(Setup(r), before, row, entries, c);
      }
      End(entry);
    }

    /** A forest of calls, one after the other. */
    method Run(r: Registry, cs: seq<Call>)
      requires Valid()
      modifies this`entries, this`nextId
      ensures Valid() && nextId >= old(nextId)
      ensures GrewBy(r, old(entries), entries, Kept(Setup(r), cs, |old(entries)|))
      decreases cs, 0
    {
      if cs != [] {
        ghost var before := entries;
        ghost var first := KeptCall(Setup(r), cs[0], |before|);
        RunCall(r, cs[0]);
        ghost var middle := entries;
        assert |middle| == |before| + |first|;
        Run(r, cs[1..]);
        GrewTwice(r, before, middle, entries, first, Kept(Setup(r), cs[1..], |middle|));
      }
    }

    /** Resolves the numeric names that can be resolved by now, hands the entries over and empties the log. */
    method Clear(r: Registry) returns (serialised: seq<string>)
      requires Valid()
      modifies this`entries
      ensures Valid() && entries == []
      ensures |serialised| == |old(entries)|
      ensures forall i :: 0 <= i < |serialised| ==> serialised[i] == Resolve(r, old(entries)[i].name)
    {
      serialised := [];
      var i := 0;
      while i < |entries|
        invariant 0 <= i <= |entries| && |serialised| == i
        invariant forall k :: 0 <= k < i ==> serialised[k] == Resolve(r, entries[k].name)
      {
        serialised := serialised + [Resolve(r, entries[i].name)];
        i := i + 1;
      }
      entries := [];
    }

    method SetMaxSize(size: int)
      requires Valid()
      modifies this`maxSize
      ensures Valid() && maxSize == size
    {
      maxSize := size;
    }

    method Filter(names: seq<string>)
      requires Valid()
      modifies this`filters
      ensures Valid() && filters == names
    {
      filters := names;
    }
  }

  // ---------------------------------------------------------- late name resolution

  /**
   What `clear` serialises for the entries es that a forest of calls left under registry r,
   wherever in the log they stand, is the names their functions have in the registry at clear
   time, r'. The registry may have grown before, between and after the forests of calls.
   */
  lemma {:induction false} ClearedLogHasFinalNames(r: Registry, r': Registry, before: seq<Entry>, after: seq<Entry>, fs: seq<Address>, i: nat)
    requires NamesOk(r) && Extends(r, r') && GrewBy(r, before, after, fs) && i < |fs|
    ensures |after| == |before| + |fs|
    ensures Resolve(r', after[|before| + i].name) == FuncName(r', fs[i])
  {
    LateNamesResolve(r, r', fs[i]);
  }

  // ------------------------------------------------- what is kept, without recursion

  /** All calls of a forest, each before the calls it makes. */
  function Preorder(cs: seq<Call>): seq<Address>
    decreases cs, 0
  {
    if cs == [] then [] else PreorderCall(cs[0]) + Preorder(cs[1..])
  }

  function PreorderCall(c: Call): seq<Address>
    decreases c, 1
  {
    [c.func] + Preorder(c.inner)
  }

  function Unfiltered(cfg: Config, fs: seq<Address>): seq<Address> {
    if fs == [] then []
    else if Filtered(cfg, fs[0]) then Unfiltered(cfg, fs[1..])
    else [fs[0]] + Unfiltered(cfg, fs[1..])
  }

  lemma {:induction false} ConsConcat(f: Address, a: seq<Address>, b: seq<Address>)
    ensures [f] + (a + b) == ([f] + a) + b
  {
  }

  lemma {:induction false} UnfilteredConcat(cfg: Config, a: seq<Address>, b: seq<Address>)
    ensures Unfiltered(cfg, a + b) == Unfiltered(cfg, a) + Unfiltered(cfg, b)
  {
    if a == [] {
      assert a + b == b;
    } else {
      UnfilteredConcat(cfg, a[1..], b);
      assert (a + b)[1..] == a[1..] + b;
      ConsConcat(a[0], Unfiltered(cfg, a[1..]), Unfiltered(cfg, b));
    }
  }

  lemma {:induction false} UnfilteredShorter(cfg: Config, fs: seq<Address>)
    ensures |Unfiltered(cfg, fs)| <= |fs|
  {
    if fs != [] {
      UnfilteredShorter(cfg, fs[1..]);
    }
  }

  /** With room for every call, the log keeps the unfiltered calls in preorder. */
  lemma {:induction false} KeptWithRoom(cfg: Config, cs: seq<Call>, n: nat)
    requires n + |Preorder(cs)| <= cfg.maxSize
    ensures Kept(cfg, cs, n) == Unfiltered(cfg, Preorder(cs))
    decreases cs, 0
  {
    if cs != [] {
      KeptCallWithRoom(cfg, cs[0], n);
      UnfilteredShorter(cfg, PreorderCall(cs[0]));
      KeptWithRoom(cfg, cs[1..], n + |KeptCall(cfg, cs[0], n)|);
      UnfilteredConcat(cfg, PreorderCall(cs[0]), Preorder(cs[1..]));
    }
  }

  lemma {:induction false} KeptCallWithRoom(cfg: Config, c: Call, n: nat)
    requires n + |PreorderCall(c)| <= cfg.maxSize
    ensures KeptCall(cfg, c, n) == Unfiltered(cfg, PreorderCall(c))
    decreases c, 1
  {
    KeptWithRoom(cfg, c.inner, n + 1);
    assert PreorderCall(c)[1..] == Preorder(c.inner);
  }

  /** The log never outgrows its capacity. */
  lemma {:induction false} KeptFits(cfg: Config, cs: seq<Call>, n: nat)
    ensures n + |Kept(cfg, cs, n)| <= if n < cfg.maxSize then cfg.maxSize else n
    decreases cs, 0
  {
    if cs != [] {
      KeptCallFits(cfg, cs[0], n);
      KeptFits(cfg, cs[1..], n + |KeptCall(cfg, cs[0], n)|);
    }
  }

  lemma {:induction false} KeptCallFits(cfg: Config, c: Call, n: nat)
    ensures n + |KeptCall(cfg, c, n)| <= if n < cfg.maxSize then cfg.maxSize else n
    decreases c, 1
  {
    if n >= cfg.maxSize {
      KeptFits(cfg, c.inner, n);
    } else {
      KeptFits(cfg, c.inner, n + 1);
    }
  }

  /** a is b with some elements left out. */
  ghost predicate Subsequence(a: seq<Address>, b: seq<Address>) {
    || a == []
    || (b != [] && a[0] == b[0] && Subsequence(a[1..], b[1..]))
    || (b != [] && Subsequence(a, b[1..]))
  }

  lemma {:induction false} SubsequencePrepend(a: seq<Address>, b: seq<Address>, p: seq<Address>)
    requires Subsequence(a, b)
    ensures Subsequence(a, p + b)
  {
    if p == [] {
      assert p + b == b;
    } else {
      SubsequencePrepend(a, b, p[1..]);
      assert (p + b)[1..] == p[1..] + b;
    }
  }

  lemma {:induction false} SubsequenceCons(f: Address, a: seq<Address>, b: seq<Address>)
    requires Subsequence(a, b)
    ensures Subsequence([f] + a, [f] + b)
  {
    assert ([f] + a)[1..] == a && ([f] + b)[1..] == b;
  }

  lemma {:induction false} SubsequenceConcat(a: seq<Address>, b: seq<Address>, c: seq<Address>, d: seq<Address>)
    requires Subsequence(a, b) && Subsequence(c, d)
    ensures Subsequence(a + c, b + d)
    decreases |b|
  {
    if a == [] {
      assert a + c == c;
      SubsequencePrepend(c, d, b);
    } else {
      assert (b + d)[1..] == b[1..] + d;
      if a[0] == b[0] && Subsequence(a[1..], b[1..]) {
        SubsequenceConcat(a[1..], b[1..], c, d);
        assert (a + c)[1..] == a[1..] + c;
      } else {
        SubsequenceConcat(a, b[1..], c, d);
      }
    }
  }

  /** Nothing whose name is filtered is kept. */
  lemma {:induction false} KeptIsUnfiltered(cfg: Config, cs: seq<Call>, n: nat)
    ensures forall f :: f in Kept(cfg, cs, n) ==> FuncName(cfg.names, f) !in cfg.filters
    decreases cs, 0
  {
    if cs != [] {
      KeptCallIsUnfiltered(cfg, cs[0], n);
      KeptIsUnfiltered(cfg, cs[1..], n + |KeptCall(cfg, cs[0], n)|);
    }
  }

  lemma {:induction false} KeptCallIsUnfiltered(cfg: Config, c: Call, n: nat)
    ensures forall f :: f in KeptCall(cfg, c, n) ==> FuncName(cfg.names, f) !in cfg.filters
    decreases c, 1
  {
    KeptIsUnfiltered(cfg, c.inner, n);
    KeptIsUnfiltered(cfg, c.inner, n + 1);
  }

  /** With nothing filtered and room for every call, the log keeps every call. */
  lemma {:induction false} KeptWithoutFilters(cfg: Config, cs: seq<Call>, n: nat)
    requires n + |Preorder(cs)| <= cfg.maxSize
    requires forall f :: f in Preorder(cs) ==> FuncName(cfg.names, f) !in cfg.filters
    ensures Kept(cfg, cs, n) == Preorder(cs)
  {
    KeptWithRoom(cfg, cs, n);
    UnfilteredIsAll(cfg, Preorder(cs));
  }

  lemma {:induction false} UnfilteredIsAll(cfg: Config, fs: seq<Address>)
    requires forall f :: f in fs ==> FuncName(cfg.names, f) !in cfg.filters
    ensures Unfiltered(cfg, fs) == fs
  {
    if fs != [] {
      assert fs[0] in fs;
      UnfilteredIsAll(cfg, fs[1..]);
      assert [fs[0]] + fs[1..] == fs;
    }
  }

  /** However full the log is, what it keeps are unfiltered calls in preorder, none twice. */
  lemma {:induction false} KeptInOrder(cfg: Config, cs: seq<Call>, n: nat)
    ensures Subsequence(Kept(cfg, cs, n), Unfiltered(cfg, Preorder(cs)))
    decreases cs, 0
  {
    if cs != [] {
      var first := KeptCall(cfg, cs[0], n);
      var rest := Kept(cfg, cs[1..], n + |first|);
      var wanted := Unfiltered(cfg, PreorderCall(cs[0]));
      var wantedRest := Unfiltered(cfg, Preorder(cs[1..]));
      assert Subsequence(first, wanted) by { KeptCallInOrder(cfg, cs[0], n); }
      assert Subsequence(rest, wantedRest) by { KeptInOrder(cfg, cs[1..], n + |first|); }
      assert Unfiltered(cfg, Preorder(cs)) == wanted + wantedRest by {
        UnfilteredConcat(cfg, PreorderCall(cs[0]), Preorder(cs[1..]));
      }
      assert Kept(cfg, cs, n) == first + rest;
      SubsequenceConcat(first, wanted, rest, wantedRest);
    }
  }

  lemma {:induction false} KeptCallInOrder(cfg: Config, c: Call, n: nat)
    ensures Subsequence(KeptCall(cfg, c, n), Unfiltered(cfg, PreorderCall(c)))
    decreases c, 1
  {
    var inner := Unfiltered(cfg, Preorder(c.inner));
    assert PreorderCall(c)[1..] == Preorder(c.inner);
    if n >= cfg.maxSize {
      KeptInOrder(cfg, c.inner, n);
      SubsequencePrepend(Kept(cfg, c.inner, n), inner, if Filtered(cfg, c.func) then [] else [c.func]);
    } else {
      KeptInOrder(cfg, c.inner, n + 1);
      var kept := Kept(cfg, c.inner, n + 1);
      if Filtered(cfg, c.func) {
        assert Unfiltered(cfg, PreorderCall(c)) == [] + inner == inner;
      } else {
        SubsequenceCons(c.func, kept, inner);
      }
    }
  }
}
