/**
 The callback multiplexer with reusable indices. Registering appends to the list;
 unregistering blanks the entry and drops blank entries from the end, so indices are
 reused while other identifiers keep theirs.
 */
module EventCallbacks {
  /**
   An entry of the callback list. `serial` tags the registration a callback belongs to;
   the code never looks into a callback except to recognise the empty one.
   */
  datatype Callback = EmptyCallback | Registered(serial: nat, action: nat)

  const InvalidIndex: int := -1

  /** The list, the index stored in each identifier handed out, and the number of registrations. */
  datatype Event = Event(callbacks: seq<Callback>, ids: map<nat, int>, added: nat)

  const NoCallbacks := Event([], map[], 0)

  function Prune(cs: seq<Callback>): seq<Callback> {
    if cs != [] && cs[|cs| - 1].EmptyCallback? then Prune(cs[..|cs| - 1]) else cs
  }

  function Added(e: Event, action: nat): Event {
    Event(e.callbacks + [Registered(e.added, action)], e.ids[e.added := |e.callbacks|], e.added + 1)
  }

  function Removed(e: Event, serial: nat): Event {
    if serial in e.ids && 0 <= e.ids[serial] < |e.callbacks| then
      Event(Prune(e.callbacks[e.ids[serial] := EmptyCallback]), e.ids[serial := InvalidIndex], e.added)
    else e
  }

  // -------------------------------------------------------------------- invariant

  /** An identifier that has not been reset names its own callback. */
  ghost predicate IdsOk(e: Event) {
    forall s: nat :: s in e.ids && e.ids[s] != InvalidIndex ==>
      0 <= e.ids[s] < |e.callbacks| && e.callbacks[e.ids[s]].Registered? && e.callbacks[e.ids[s]].serial == s
  }

  /** A live entry is named by its own identifier. */
  ghost predicate EntriesOk(e: Event) {
    forall p :: 0 <= p < |e.callbacks| && e.callbacks[p].Registered? ==>
      e.callbacks[p].serial in e.ids && e.ids[e.callbacks[p].serial] == p
  }

  ghost predicate EndsLive(cs: seq<Callback>) {
    cs != [] ==> cs[|cs| - 1].Registered?
  }

  ghost predicate Consistent(e: Event) {
    && (forall s: nat :: s in e.ids <==> s < e.added)
    && IdsOk(e) && EntriesOk(e) && EndsLive(e.callbacks)
  }

  /** The live registrations, in list order. */
  function Live(cs: seq<Callback>): seq<Callback> {
    if cs == [] then []
    else if cs[|cs| - 1].Registered? then Live(cs[..|cs| - 1]) + [cs[|cs| - 1]]
    else Live(cs[..|cs| - 1])
  }

  function Without(cs: seq<Callback>, serial: nat): seq<Callback> {
    if cs == [] then []
    else if cs[|cs| - 1].Registered? && cs[|cs| - 1].serial == serial then Without(cs[..|cs| - 1], serial)
    else Without(cs[..|cs| - 1], serial) + [cs[|cs| - 1]]
  }

  lemma {:induction false} PruneKeepsLive(cs: seq<Callback>)
    ensures Live(Prune(cs)) == Live(cs)
    ensures Prune(cs) <= cs
    ensures EndsLive(Prune(cs))
    ensures forall p :: |Prune(cs)| <= p < |cs| ==> cs[p].EmptyCallback?
  {
    if cs != [] && cs[|cs| - 1].EmptyCallback? {
      PruneKeepsLive(cs[..|cs| - 1]);
    }
  }

  lemma AddedKeepsValid(e: Event, action: nat)
    requires Consistent(e)
    ensures Consistent(Added(e, action))
    ensures Live(Added(e, action).callbacks) == Live(e.callbacks) + [Registered(e.added, action)]
  {
    var e' := Added(e, action);
    assert e'.callbacks[..|e.callbacks|] == e.callbacks;
  }

  lemma RemovedKeepsValid(e: Event, serial: nat)
    requires Consistent(e)
    ensures Consistent(Removed(e, serial))
  {
    if serial in e.ids && e.ids[serial] != InvalidIndex {
      var cs := e.callbacks[e.ids[serial] := EmptyCallback];
      var e' := Removed(e, serial);
      PruneKeepsLive(cs);
      assert IdsOk(e') by {
        forall s: nat | s in e'.ids && e'.ids[s] != InvalidIndex
          ensures 0 <= e'.ids[s] < |e'.callbacks| && e'.callbacks[e'.ids[s]] == e.callbacks[e.ids[s]]
        {
          assert cs[e.ids[s]] == e.callbacks[e.ids[s]];
        }
      }
      assert EntriesOk(e') by {
        forall p | 0 <= p < |e'.callbacks| && e'.callbacks[p].Registered?
          ensures e.callbacks[p] == e'.callbacks[p] && p != e.ids[serial]
        {
          assert e'.callbacks[p] == cs[p];
        }
      }
    }
  }

  /** Blanking the one entry of a registration takes exactly that one out of the live list. */
  lemma {:induction false} BlankDropsOne(cs: seq<Callback>, i: nat)
    requires i < |cs| && cs[i].Registered?
    requires forall p :: 0 <= p < |cs| && p != i && cs[p].Registered? ==> cs[p].serial != cs[i].serial
    ensures Live(cs[i := EmptyCallback]) == Without(Live(cs), cs[i].serial)
  {
    if i == |cs| - 1 {
      BlankDropsLast(cs);
    } else {
      var init, last, serial := cs[..|cs| - 1], cs[|cs| - 1], cs[i].serial;
      LiveBlanked(cs, i);
      assert init[i] == cs[i];
      BlankDropsOne(init, i);
      WithoutSnoc(Live(init), last, serial);
    }
  }

  lemma {:induction false} BlankDropsLast(cs: seq<Callback>)
    requires cs != [] && cs[|cs| - 1].Registered?
    requires forall p :: 0 <= p < |cs| - 1 && cs[p].Registered? ==> cs[p].serial != cs[|cs| - 1].serial
    ensures Live(cs[|cs| - 1 := EmptyCallback]) == Without(Live(cs), cs[|cs| - 1].serial)
  {
    var init, last := cs[..|cs| - 1], cs[|cs| - 1];
    assert cs[|cs| - 1 := EmptyCallback][..|cs| - 1] == init;
    WithoutAbsent(init, last.serial);
    WithoutSnoc(Live(init), last, last.serial);
  }

  lemma {:induction false} LiveBlanked(cs: seq<Callback>, i: nat)
    requires i < |cs| - 1
    ensures
      var init, last := cs[..|cs| - 1], cs[|cs| - 1];
      Live(cs[i := EmptyCallback]) ==
      if last.Registered? then Live(init[i := EmptyCallback]) + [last] else Live(init[i := EmptyCallback])
  {
    assert cs[i := EmptyCallback][..|cs| - 1] == cs[..|cs| - 1][i := EmptyCallback];
  }

  lemma WithoutSnoc(cs: seq<Callback>, c: Callback, serial: nat)
    ensures Without(cs + [c], serial) ==
      if c.Registered? && c.serial == serial then Without(cs, serial) else Without(cs, serial) + [c]
  {
    assert (cs + [c])[..|cs|] == cs;
  }

  lemma {:induction false} WithoutAbsent(cs: seq<Callback>, serial: nat)
    requires forall p :: 0 <= p < |cs| && cs[p].Registered? ==> cs[p].serial != serial
    ensures Without(Live(cs), serial) == Live(cs)
  {
    if cs != [] {
      var init, last := cs[..|cs| - 1], cs[|cs| - 1];
      WithoutAbsent(init, serial);
      if last.Registered? {
        WithoutSnoc(Live(init), last, serial);
      }
    }
  }

  lemma RemovedDropsOne(e: Event, serial: nat)
    requires Consistent(e)
    ensures Live(Removed(e, serial).callbacks) == Without(Live(e.callbacks), serial)
  {
    if serial in e.ids && e.ids[serial] != InvalidIndex {
      var i := e.ids[serial];
      PruneKeepsLive(e.callbacks[i := EmptyCallback]);
      forall p | 0 <= p < |e.callbacks| && p != i && e.callbacks[p].Registered?
        ensures e.callbacks[p].serial != serial
      {
        assert e.ids[e.callbacks[p].serial] == p;
      }
      BlankDropsOne(e.callbacks, i);
    } else {
      forall p | 0 <= p < |e.callbacks| && e.callbacks[p].Registered? ensures e.callbacks[p].serial != serial {
        assert e.ids[e.callbacks[p].serial] == p;
      }
      WithoutAbsent(e.callbacks, serial);
    }
  }

  /** What removing by an index does to the list. */
  function Blanked(cs: seq<Callback>, i: int): seq<Callback> {
    if 0 <= i < |cs| then Prune(cs[i := EmptyCallback]) else cs
  }

  /** The index names no live callback. */
  predicate Harmless(cs: seq<Callback>, i: int) {
    0 <= i < |cs| ==> cs[i].EmptyCallback?
  }

  lemma {:induction false} PruneKeepsEndsLive(cs: seq<Callback>)
    requires EndsLive(cs)
    ensures Prune(cs) == cs
  {
  }

  lemma {:induction false} OwnRemove(e: Event, serial: nat)
    requires Consistent(e) && serial in e.ids
    ensures Consistent(Removed(e, serial))
    ensures e.ids[serial] == InvalidIndex || 0 <= e.ids[serial] < |e.callbacks|
    ensures Removed(e, serial) == Event(Blanked(e.callbacks, e.ids[serial]), e.ids[serial := InvalidIndex], e.added)
  {
    RemovedKeepsValid(e, serial);
    if e.ids[serial] == InvalidIndex {
      assert e.ids[serial := InvalidIndex] == e.ids;
    }
  }

  /** Removing by an index that no identifier of this event gives up keeps the event consistent exactly if it is harmless. */
  lemma {:induction false} ForeignRemoveExactly(e: Event, i: int)
    requires Consistent(e)
    ensures Consistent(e.(callbacks := Blanked(e.callbacks, i))) <==> Harmless(e.callbacks, i)
  {
    if 0 <= i < |e.callbacks| {
      var cs := e.callbacks[i := EmptyCallback];
      if e.callbacks[i].EmptyCallback? {
        assert cs == e.callbacks;
        PruneKeepsEndsLive(cs);
      } else {
        var s, e' := e.callbacks[i].serial, e.(callbacks := Blanked(e.callbacks, i));
        PruneKeepsLive(cs);
        assert e.ids[s] == i;
        assert i < |e'.callbacks| ==> e'.callbacks[i] == cs[i];
        assert !IdsOk(e');
      }
    }
  }

  // ------------------------------------------------------------------------- runs

  datatype Op = Add(action: nat) | Remove(serial: nat)

  /** What has been done to an event, most recent last. */
  datatype History = Created | Then(before: History, op: Op)

  function After(h: History): Event {
    match h
    case Created => NoCallbacks
    case Then(before, Add(action)) => Added(After(before), action)
    case Then(before, Remove(serial)) => Removed(After(before), serial)
  }

  /** The reference: an ordered list of registrations, from which removal takes at most one. */
  function Registrations(h: History): seq<Callback> {
    match h
    case Created => []
    case Then(before, Add(action)) => Registrations(before) + [Registered(Adds(before), action)]
    case Then(before, Remove(serial)) => Without(Registrations(before), serial)
  }

  function Adds(h: History): nat {
    match h
    case Created => 0
    case Then(before, op) => Adds(before) + (if op.Add? then 1 else 0)
  }

  /** Under any run of additions and removals the event is an ordered list of live registrations. */
  lemma {:induction false} EventIsAnOrderedList(h: History)
    ensures Consistent(After(h)) && After(h).added == Adds(h)
    ensures Live(After(h).callbacks) == Registrations(h)
  {
    match h
    case Created =>
    case Then(before, Add(action)) =>
      EventIsAnOrderedList(before);
      AddedKeepsValid(After(before), action);
    case Then(before, Remove(serial)) =>
      EventIsAnOrderedList(before);
      RemovedKeepsValid(After(before), serial);
      RemovedDropsOne(After(before), serial);
  }

  /** Identifiers that have not been reset have distinct indices, each naming its own callback. */
  lemma LiveIdsAreDistinct(h: History, s: nat, s': nat)
    requires s < Adds(h) && s' < Adds(h) && s != s'
    ensures
      var e := After(h);
      && s in e.ids && s' in e.ids
      && (e.ids[s] != InvalidIndex ==>
            0 <= e.ids[s] < |e.callbacks| && e.ids[s] != e.ids[s']
            && e.callbacks[e.ids[s]].Registered? && e.callbacks[e.ids[s]].serial == s)
  {
    EventIsAnOrderedList(h);
  }

  /** h' continues h. */
  ghost predicate Continues(h: History, h': History) {
    h == h' || (h'.Then? && Continues(h, h'.before))
  }

  lemma {:induction false} ResetIdsStayReset(h: History, h': History, serial: nat)
    requires serial < Adds(h) && Continues(Then(h, Remove(serial)), h')
    ensures serial in After(h').ids && After(h').ids[serial] == InvalidIndex
  {
    EventIsAnOrderedList(h);
    EventIsAnOrderedList(h');
    if h' != Then(h, Remove(serial)) {
      ResetIdsStayReset(h, h'.before, serial);
      EventIsAnOrderedList(h'.before);
      assert serial != After(h'.before).added;
    }
  }

  /** Removing the same registration a second time changes nothing, whatever was added or removed in between. */
  lemma {:induction false} SecondRemoveIsHarmless(h: History, h': History, serial: nat)
    requires serial < Adds(h) && Continues(Then(h, Remove(serial)), h')
    ensures After(Then(h', Remove(serial))) == After(h')
  {
    ResetIdsStayReset(h, h', serial);
  }

  // ------------------------------------------------------------------- the objects

  /** The actions performed are those of the live entries, each once, in order. */
  ghost predicate Performs(performed: seq<nat>, live: seq<Callback>) {
    && |performed| == |live|
    && forall p :: 0 <= p < |live| ==> live[p].Registered? && performed[p] == live[p].action
  }

  /** Has registration s been added and not been removed since? */
  predicate IsLive(h: History, s: nat) {
    match h
    case Created => false
    case Then(before, Add(_)) => s == Adds(before) || IsLive(before, s)
    case Then(before, Remove(r)) => s != r && IsLive(before, s)
  }

  /** The action of registration s. */
  function ActionOf(h: History, s: nat): nat
    requires s < Adds(h)
  {
    match h
    case Then(before, Add(action)) => if s == Adds(before) then action else ActionOf(before, s)
    case Then(before, Remove(_)) => ActionOf(before, s)
  }

  ghost predicate InOrder(cs: seq<Callback>) {
    && (forall p :: 0 <= p < |cs| ==> cs[p].Registered?)
    && (forall p, q :: 0 <= p < q < |cs| ==> cs[p].serial < cs[q].serial)
  }

  lemma {:induction false} WithoutKeepsOrder(cs: seq<Callback>, serial: nat)
    requires InOrder(cs)
    ensures InOrder(Without(cs, serial))
    ensures forall c :: c in Without(cs, serial) <==> c in cs && c.Registered? && c.serial != serial
  {
    if cs != [] {
      var init, last := cs[..|cs| - 1], cs[|cs| - 1];
      WithoutKeepsOrder(init, serial);
      assert cs == init + [last];
      forall p | 0 <= p < |Without(init, serial)| ensures Without(init, serial)[p].serial < last.serial {
        assert Without(init, serial)[p] in init;
      }
    }
  }

  /** The reference list is the registrations that are live, oldest first, each with the action it was added with. */
  lemma {:induction false} RegistrationsAreTheLive(h: History)
    ensures InOrder(Registrations(h))
    ensures forall c :: c in Registrations(h) <==>
      c.Registered? && c.serial < Adds(h) && IsLive(h, c.serial) && c.action == ActionOf(h, c.serial)
  {
    match h
    case Created =>
    case Then(before, Add(action)) =>
      RegistrationsAreTheLive(before);
      LiveIsBelow(before, Adds(before));
      var added := Registered(Adds(before), action);
      assert forall c :: c in Registrations(h) <==> c in Registrations(before) || c == added;
      forall p | 0 <= p < |Registrations(before)| ensures Registrations(before)[p].serial < Adds(before) {
        assert Registrations(before)[p] in Registrations(before);
      }
    case Then(before, Remove(serial)) =>
      RegistrationsAreTheLive(before);
      WithoutKeepsOrder(Registrations(before), serial);
  }

  lemma {:induction false} LiveIsBelow(h: History, s: nat)
    requires s >= Adds(h)
    ensures !IsLive(h, s)
  {
    if h.Then? {
      LiveIsBelow(h.before, s);
    }
  }

  /**
   Invoking the event after any run of additions and removals performs the actions of the live
   registrations and no others, each once, in the order they were registered.
   */
  lemma {:induction false} InvokeRunsTheLiveInOrder(h: History, performed: seq<nat>)
    requires Performs(performed, Live(After(h).callbacks))
    ensures Performs(performed, Registrations(h)) && InOrder(Registrations(h))
    ensures forall s: nat :: IsLive(h, s) <==> s < Adds(h) && Registered(s, ActionOf(h, s)) in Registrations(h)
  {
    EventIsAnOrderedList(h);
    RegistrationsAreTheLive(h);
    forall s: nat ensures IsLive(h, s) <==> s < Adds(h) && Registered(s, ActionOf(h, s)) in Registrations(h) {
      if s >= Adds(h) {
        LiveIsBelow(h, s);
      }
    }
  }

  /** The identifier handed to the caller of `add`. */
  class Id {
    var index: int
    ghost const serial: nat

    constructor (index: int, ghost serial: nat)
      ensures this.index == index && this.serial == serial
    {
      this.index, this.serial := index, serial;
    }

    method Reset()
      modifies this
      ensures index == InvalidIndex
    {
      index := InvalidIndex;
    }
  }

  class Multiplexer {
    var callbacks: seq<Callback>
    var added: nat
    /** The identifiers handed out, by registration, and the indices they hold. */
    ghost var ids: map<nat, Id>
    ghost var indices: map<nat, int>

    ghost function View(): Event
      reads this
    {
      Event(callbacks, indices, added)
    }

    ghost predicate Tracked()
      reads this, ids.Values
    {
      ids.Keys == indices.Keys && forall s :: s in ids ==> ids[s].serial == s && ids[s].index == indices[s]
    }

    /** Was the identifier handed out by this event? */
    ghost predicate Own(id: Id)
      reads this
    {
      id.serial in ids && ids[id.serial] == id
    }

    ghost predicate Valid()
      reads this, ids.Values
    {
      Tracked() && Consistent(View())
    }

    constructor ()
      ensures Valid() && View() == NoCallbacks
    {
      callbacks, added, ids, indices := [], 0, map[], map[];
    }

    method Add(action: nat) returns (id: Id)
      requires Valid()
      modifies this
      ensures Valid() && fresh(id)
      ensures ids == old(ids)[old(added) := id]
      ensures View() == Added(old(View()), action)
    {
      ghost var before := View();
      callbacks := callbacks + [Registered(added, action)];
      id := HandOut(|callbacks| - 1);
      added := added + 1;
      assert View() == Added(before, action);
      AddedKeepsValid(before, action);
    }

    /** A new identifier for the next registration. */
    method HandOut(index: int) returns (id: Id)
      requires Tracked()
      modifies this`ids, this`indices
      ensures Tracked() && fresh(id)
      ensures ids == old(ids)[added := id] && indices == old(indices)[added := index]
    {
      id := new Id(index, added);
      ids, indices := ids[added := id], indices[added := index];
    }

    /** Drops blank entries from the end of the list. */
    method PruneCallbacks()
      modifies this`callbacks
      ensures callbacks == Prune(old(callbacks))
      decreases |callbacks|
    {
      if callbacks != [] && callbacks[|callbacks| - 1].EmptyCallback? {
        callbacks := callbacks[..|callbacks| - 1];
        PruneCallbacks();
      }
    }

    /**
     Unregisters a callback; false stands for an index out of bounds. An identifier of this
     event takes out its own registration. One that another event handed out resets, but
     leaves this event consistent only if its index names no live callback here.
     */
    method Remove(id: Id) returns (ok: bool)
      requires Valid()
      modifies this, id
      ensures ids == old(ids) && added == old(added) && Tracked() && id.index == InvalidIndex
      ensures ok <==> old(id.index) == InvalidIndex || 0 <= old(id.index) < |old(callbacks)|
      ensures callbacks == Blanked(old(callbacks), old(id.index))
      ensures Own(id) ==> ok && Valid() && View() == Removed(old(View()), id.serial)
      ensures !Own(id) ==> indices == old(indices) && (Valid() <==> Harmless(old(callbacks), old(id.index)))
    {
      var index := id.index;
      ghost var before := View();
      ok := true;
      if index != InvalidIndex {
        ResetId(id);
        ok := BlankAt(index);
      }
      if Own(id) {
        OwnRemove(before, id.serial);
        assert View() == Removed(before, id.serial);
      } else {
        ForeignRemoveExactly(before, index);
        assert View() == before.(callbacks := Blanked(before.callbacks, index));
      }
    }

    /** Resets an identifier, and its index on record if this event handed it out. */
    method ResetId(id: Id)
      requires Tracked()
      modifies this`indices, id
      ensures Tracked() && id.index == InvalidIndex
      ensures indices == if Own(id) then old(indices)[id.serial := InvalidIndex] else old(indices)
    {
      id.Reset();
      if Own(id) {
        indices := indices[id.serial := InvalidIndex];
      }
    }

    /** Blanks the entry at an index, if there is one, and drops blank entries from the end. */
    method BlankAt(index: int) returns (ok: bool)
      modifies this`callbacks
      ensures ok <==> 0 <= index < |old(callbacks)|
      ensures callbacks == Blanked(old(callbacks), index)
    {
      ok := 0 <= index < |callbacks|;
      if ok {
        callbacks := callbacks[index := EmptyCallback];
        PruneCallbacks();
      }
    }

    /** Calls every callback; the result is the actions performed, in order. */
    method Invoke() returns (performed: seq<nat>)
      requires Valid()
      ensures Performs(performed, Live(callbacks))
    {
      performed := [];
      var i := 0;
      while i < |callbacks|
        invariant 0 <= i <= |callbacks|
        invariant Performs(performed, Live(callbacks[..i]))
      {
        assert callbacks[..i + 1][..i] == callbacks[..i];
        if callbacks[i].Registered? {
          performed := performed + [callbacks[i].action];
        }
        i := i + 1;
      }
      assert callbacks[..i] == callbacks;
    }
  }
}
