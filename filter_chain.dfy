// DefaultFilterChain: the doubly linked list of named entries between the
// head and tail sentinels, its add/remove operations with their lifecycle
// hooks, and its fire methods, which walk the links to take a snapshot of
// the filters and evaluate the dispatch functions of FilterEvents on it.
module FilterChains {
  import opened Common
  import opened Futures
  import opened WritePackets
  import opened AttributeKeys
  import opened AttributeMaps
  import opened ProtocolFilters
  import opened FilterEvents

  /** The filters of the core: the two private sentinels and the user's filters. */
  datatype Filter =
    | HeadFilter
    | TailFilter
    | Adapter(id: nat, hookFailures: map<Hook, Exn>)
    | Protocol(pf: ProtocolFilter)

  /** The filters a caller can add (HeadFilter and TailFilter are private classes). */
  predicate IsUserFilter(f: Filter) {
    f.Adapter? || f.Protocol?
  }

  /** The filter as the dispatch sees it. */
  function StageOf(f: Filter): (st: Stage)
    requires IsUserFilter(f)
    reads if f.Protocol? then {f.pf} else {}
  {
    match f
    case Adapter(_, failures) => Forward(failures)
    case Protocol(pf) => Codecs(pf, pf.encoder, pf.decoder)
  }

  class Entry {
    const name: string
    const filter: Filter
    var prev: Entry?
    var next: Entry?

    constructor(prev: Entry?, next: Entry?, name: string, filter: Filter)
      ensures this.prev == prev && this.next == next
      ensures this.name == name && this.filter == filter
    {
      this.prev := prev;
      this.next := next;
      this.name := name;
      this.filter := filter;
    }
  }

  /** The ProtocolFilters the entries hold. */
  function ProtocolFiltersOf(es: seq<Entry>): set<ProtocolFilter> {
    set i | 0 <= i < |es| && es[i].filter.Protocol? :: es[i].filter.pf
  }

  /** The snapshot of a run of entries. */
  function StagesOf(es: seq<Entry>): (r: seq<Stage>)
    requires forall i :: 0 <= i < |es| ==> IsUserFilter(es[i].filter)
    reads ProtocolFiltersOf(es)
    ensures |r| == |es|
    ensures forall i :: 0 <= i < |es| ==> r[i] == StageOf(es[i].filter)
  {
    if es == [] then []
    else
      assert ProtocolFiltersOf(es[1..]) <= ProtocolFiltersOf(es) by {
        forall p | p in ProtocolFiltersOf(es[1..]) ensures p in ProtocolFiltersOf(es) {
          var i :| 0 <= i < |es[1..]| && es[1..][i].filter.Protocol? && es[1..][i].filter.pf == p;
          assert es[i + 1] == es[1..][i];
        }
      }
      [StageOf(es[0].filter)] + StagesOf(es[1..])
  }

  /**
   * What addLast does with a name and a filter, given the names in use and
   * whether the filter is in the chain already: the checks in the order
   * checkAddable, the entry constructor, onPreAdd and onPostAdd make them.
   */
  function AddOutcome(name: Option<string>, filter: Option<Filter>, names: set<string>, alreadyInChain: bool): (o: Outcome)
    requires filter.Some? ==> IsUserFilter(filter.value)
    ensures o.Done? ==>
      name.Some? && name.value !in names && filter.Some?
      && (filter.value.Protocol? ==> !alreadyInChain)
    ensures name.None? ==> o == Threw(NPE)
    ensures name.Some? && name.value in names ==> o.Threw? && o.exn.kind == IllegalArgument
    ensures name.Some? && name.value !in names && filter.None? ==> o == Threw(Exn(IllegalArgument, "filter"))
    ensures name.Some? && name.value !in names && filter.Some? && filter.value.Protocol? && alreadyInChain ==>
      o.Threw? && o.exn.kind == Runtime
  {
    if name.None? then Threw(NPE)
    else if name.value in names then Threw(Exn(IllegalArgument, "Other filter is using the same name '" + name.value + "'"))
    else if filter.None? then Threw(Exn(IllegalArgument, "filter"))
    else
      var st := HookStage(filter.value);
      match HookThrows(st, PreAdd, alreadyInChain)
      case Some(e) => Threw(HookFailure(PreAdd, e))
      case None =>
        match HookThrows(st, PostAdd, alreadyInChain)
        case Some(e) => Threw(HookFailure(PostAdd, e))
        case None => Done
  }

  /** The filter's hooks, which do not depend on its codecs. */
  function HookStage(f: Filter): (st: Stage)
    requires IsUserFilter(f)
    ensures f.Adapter? ==> st == Forward(f.hookFailures)
    ensures f.Protocol? ==> st.Codecs?
  {
    match f
    case Adapter(_, failures) => Forward(failures)
    case Protocol(pf) => Codecs(pf, None, None)
  }

  /** The two codec outputs of a session. */
  function SlotsOf(attrs: DefaultAttributeMap): Slots
    reads attrs, OutputObjects(attrs)
  {
    Slots(SlotOf(attrs, SESSION_DECODER_OUT), SlotOf(attrs, SESSION_ENCODER_OUT))
  }

  /** The decoder and encoder outputs are not one and the same object. */
  predicate SeparateOutputs(attrs: DefaultAttributeMap)
    reads attrs
  {
    SESSION_DECODER_OUT in attrs.attributes && SESSION_ENCODER_OUT in attrs.attributes ==>
      attrs.attributes[SESSION_DECODER_OUT] != attrs.attributes[SESSION_ENCODER_OUT]
  }

  /** The attributes other than key are as they were. */
  twostate predicate OthersUnchanged(attrs: DefaultAttributeMap, key: AttributeKey)
    reads attrs
  {
    forall k :: k != key ==>
      (k in attrs.attributes <==> k in old(attrs.attributes))
      && (k in attrs.attributes ==> attrs.attributes[k] == old(attrs.attributes[k]))
  }

  /**
   * Brings the output under key to the state a dispatch left it in: the
   * attribute is removed, or the output (created and stored when missing)
   * holds the given message. An attribute of another class is left alone.
   */
  method ApplySlot(attrs: DefaultAttributeMap, key: AttributeKey, s: SlotState)
    requires s.NotAnOutput? ==> SlotOf(attrs, key).NotAnOutput?
    modifies attrs, OutputAt(attrs, key)
    ensures SlotOf(attrs, key) == s
    ensures OthersUnchanged(attrs, key)
    ensures s.OutputHolds? && old(SlotOf(attrs, key)).OutputHolds? ==> attrs.attributes[key] == old(attrs.attributes[key])
    ensures key in attrs.attributes ==>
      (key in old(attrs.attributes) && attrs.attributes[key] == old(attrs.attributes[key])) || fresh(attrs.attributes[key])
  {
    match s
    case NotAnOutput =>
    case NoOutput =>
      attrs.attributes := attrs.attributes - {key};
    case OutputHolds(m) =>
      if key in attrs.attributes {
        var o: object := attrs.attributes[key];
        if o is ProtocolOutput {
          var out := o as ProtocolOutput;
          out.Write(m);
          return;
        }
      }
      var out := new ProtocolOutput();
      out.Write(m);
      attrs.attributes := attrs.attributes[key := out];
  }

  /** Both outputs at once. */
  method ApplySlots(attrs: DefaultAttributeMap, slots: Slots)
    requires SeparateOutputs(attrs)
    requires slots.decoderOut.NotAnOutput? ==> SlotOf(attrs, SESSION_DECODER_OUT).NotAnOutput?
    requires slots.encoderOut.NotAnOutput? ==> SlotOf(attrs, SESSION_ENCODER_OUT).NotAnOutput?
    modifies attrs, OutputObjects(attrs)
    ensures SlotsOf(attrs) == slots && SeparateOutputs(attrs)
    ensures forall k :: k != SESSION_DECODER_OUT && k != SESSION_ENCODER_OUT ==>
      (k in attrs.attributes <==> k in old(attrs.attributes))
      && (k in attrs.attributes ==> attrs.attributes[k] == old(attrs.attributes[k]))
  {
    ChainKeysDistinct();
    var dec, enc := SESSION_DECODER_OUT, SESSION_ENCODER_OUT;
    ApplySlot(attrs, dec, slots.decoderOut);
    assert SeparateOutputs(attrs);
    ghost var mid: map<AttributeKey, object> := attrs.attributes;
    label Mid:
    ApplySlot(attrs, enc, slots.encoderOut);
    assert dec in attrs.attributes <==> dec in mid;
    if dec in attrs.attributes {
      assert attrs.attributes[dec] == mid[dec];
      if enc in attrs.attributes {
        assert attrs.attributes[dec] != attrs.attributes[enc];
      }
      if enc in mid {
        assert mid[dec] != mid[enc];
      }
      ghost var d: object := mid[dec];
      assert d is ProtocolOutput ==> unchanged@Mid(d as ProtocolOutput);
    }
  }


  /** No node appears twice. */
  ghost predicate Distinct(ns: seq<Entry>) {
    forall i, j :: 0 <= i < j < |ns| ==> ns[i] != ns[j]
  }

  /** name2entry maps exactly the entries' names to the entries. */
  ghost predicate NamesAgree(es: seq<Entry>, m: map<string, Entry>) {
    && (forall i :: 0 <= i < |es| ==> es[i].name in m && m[es[i].name] == es[i])
    && (forall n :: n in m ==> exists i :: 0 <= i < |es| && es[i].name == n)
  }

  /** A ProtocolFilter instance is held by one entry at most. */
  ghost predicate ProtocolFiltersOnce(es: seq<Entry>) {
    forall i, j :: 0 <= i < j < |es| && es[i].filter.Protocol? ==> es[i].filter != es[j].filter
  }

  ghost predicate UserFilters(es: seq<Entry>) {
    forall i :: 0 <= i < |es| ==> IsUserFilter(es[i].filter)
  }

  /** The sequence without its element at position k. */
  ghost function Without<T>(s: seq<T>, k: nat): (r: seq<T>)
    requires k < |s|
    ensures |r| == |s| - 1
    ensures forall i :: 0 <= i < k ==> r[i] == s[i]
    ensures forall i :: k <= i < |r| ==> r[i] == s[i + 1]
  {
    s[..k] + s[k + 1..]
  }

  lemma DistinctWithout(ns: seq<Entry>, k: nat)
    requires k < |ns| && Distinct(ns)
    ensures Distinct(Without(ns, k))
    ensures forall i :: 0 <= i < |ns| - 1 ==> Without(ns, k)[i] != ns[k]
  {
    var r := Without(ns, k);
    forall i, j | 0 <= i < j < |r| ensures r[i] != r[j] {
      var i' := if i < k then i else i + 1;
      var j' := if j < k then j else j + 1;
      assert r[i] == ns[i'] && r[j] == ns[j'];
    }
    forall i | 0 <= i < |r| ensures r[i] != ns[k] {
      var i' := if i < k then i else i + 1;
      assert r[i] == ns[i'];
    }
  }

  lemma {:induction false} NamesWithout(es: seq<Entry>, m: map<string, Entry>, k: nat)
    requires k < |es| && Distinct(es) && NamesAgree(es, m)
    ensures NamesAgree(Without(es, k), m - {es[k].name})
  {
    var r := Without(es, k);
    var m' := m - {es[k].name};
    forall i | 0 <= i < |r| ensures r[i].name in m' && m'[r[i].name] == r[i] {
      var j := if i < k then i else i + 1;
      assert r[i] == es[j] && es[j] != es[k];
      assert m[es[j].name] == es[j] && m[es[k].name] == es[k];
    }
    forall nm | nm in m' ensures exists i :: 0 <= i < |r| && r[i].name == nm {
      var j :| 0 <= j < |es| && es[j].name == nm;
      assert j != k;
      var i := if j < k then j else j - 1;
      assert r[i] == es[j];
    }
  }

  lemma OnceWithout(es: seq<Entry>, k: nat)
    requires k < |es| && ProtocolFiltersOnce(es) && UserFilters(es)
    ensures ProtocolFiltersOnce(Without(es, k)) && UserFilters(Without(es, k))
  {
    var r := Without(es, k);
    forall i, j | 0 <= i < j < |r| && r[i].filter.Protocol? ensures r[i].filter != r[j].filter {
      var i' := if i < k then i else i + 1;
      var j' := if j < k then j else j + 1;
      assert r[i] == es[i'] && r[j] == es[j'];
    }
  }

  /** Each node's next is its successor and the successor's prev is the node. */
  ghost predicate Linked(ns: seq<Entry>)
    reads ns
  {
    forall i :: 0 <= i < |ns| - 1 ==> ns[i].next == ns[i + 1] && ns[i + 1].prev == ns[i]
  }

  lemma DistinctAt(ns: seq<Entry>, i: nat, j: nat)
    requires Distinct(ns) && i < |ns| && j < |ns| && i != j
    ensures ns[i] != ns[j]
  {
    if j < i {
      assert ns[j] != ns[i];
    }
  }

  /** The neighbours p and n of node k + 1 are made to point at each other; every other link stays. */
  method Splice(p: Entry, n: Entry, ghost nodes: seq<Entry>, ghost k: nat)
    requires k + 2 < |nodes| && Linked(nodes) && Distinct(nodes)
    requires p == nodes[k] && n == nodes[k + 2]
    modifies p, n
    ensures p.next == n && n.prev == p && p.prev == old(p.prev) && n.next == old(n.next)
    ensures forall i :: 0 <= i < |nodes| - 1 && i != k && i != k + 1 ==> nodes[i].next == nodes[i + 1]
    ensures forall i :: 0 <= i < |nodes| - 1 && i != k && i != k + 1 ==> nodes[i + 1].prev == nodes[i]
    ensures forall pf: ProtocolFilter :: old(allocated(pf)) ==> pf.encoder == old(pf.encoder) && pf.decoder == old(pf.decoder)
  {
    p.next := n;
    n.prev := p;
    forall i | 0 <= i < |nodes| - 1 && i != k && i != k + 1 ensures nodes[i].next == nodes[i + 1] {
      DistinctAt(nodes, i, k);
      assert old(nodes[i].next) == nodes[i + 1];
    }
    forall i | 0 <= i < |nodes| - 1 && i != k && i != k + 1 ensures nodes[i + 1].prev == nodes[i] {
      DistinctAt(nodes, i + 1, k + 2);
      assert old(nodes[i + 1].prev) == nodes[i];
    }
  }

  /** A new node e is linked between the last two nodes p and t; every other link stays. */
  method InsertBefore(p: Entry, e: Entry, t: Entry, ghost nodes: seq<Entry>)
    requires 2 <= |nodes| && Linked(nodes) && Distinct(nodes)
    requires p == nodes[|nodes| - 2] && t == nodes[|nodes| - 1]
    requires forall i :: 0 <= i < |nodes| ==> nodes[i] != e
    modifies p, t
    ensures p.next == e && t.prev == e && p.prev == old(p.prev) && t.next == old(t.next)
    ensures forall i :: 0 <= i < |nodes| - 2 ==> nodes[i].next == nodes[i + 1] && nodes[i + 1].prev == nodes[i]
    ensures forall pf: ProtocolFilter :: old(allocated(pf)) ==> pf.encoder == old(pf.encoder) && pf.decoder == old(pf.decoder)
  {
    t.prev := e;
    p.next := e;
    forall i | 0 <= i < |nodes| - 2 ensures nodes[i].next == nodes[i + 1] && nodes[i + 1].prev == nodes[i] {
      DistinctAt(nodes, i, |nodes| - 2);
      DistinctAt(nodes, i + 1, |nodes| - 1);
      assert old(nodes[i].next) == nodes[i + 1] && old(nodes[i + 1].prev) == nodes[i];
    }
  }

  /** The facts about the entries that removing the one at position k keeps. */
  lemma {:induction false} WithoutKeeps(h: Entry, t: Entry, es: seq<Entry>, m: map<string, Entry>, k: nat)
    requires k < |es| && Distinct([h] + es + [t])
    requires NamesAgree(es, m) && ProtocolFiltersOnce(es) && UserFilters(es)
    ensures NamesAgree(Without(es, k), m - {es[k].name})
    ensures ProtocolFiltersOnce(Without(es, k)) && UserFilters(Without(es, k))
  {
    var nodes := [h] + es + [t];
    assert Distinct(es) by {
      forall i, j | 0 <= i < j < |es| ensures es[i] != es[j] {
        assert es[i] == nodes[i + 1] && es[j] == nodes[j + 1];
      }
    }
    NamesWithout(es, m, k);
    OnceWithout(es, k);
  }

  /**
   * A chain whose old nodes are still linked, except that the neighbours of
   * the entry at position k now point at each other, is valid without it.
   */
  lemma UnlinkValid<S>(c: DefaultFilterChain<S>, nodes: seq<Entry>, es: seq<Entry>, m: map<string, Entry>, k: nat)
    requires k < |es| && nodes == [c.head] + es + [c.tail] && c.entries == Without(es, k)
    requires Distinct(nodes) && forall i :: 0 <= i < |nodes| ==> nodes[i] in c.Repr
    requires c.head.filter == HeadFilter && c.tail.filter == TailFilter
    requires c.head.prev == null && c.tail.next == null
    requires NamesAgree(es, m) && ProtocolFiltersOnce(es) && UserFilters(es) && c.name2entry == m - {es[k].name}
    requires nodes[k].next == nodes[k + 2] && nodes[k + 2].prev == nodes[k]
    requires forall i :: 0 <= i < |nodes| - 1 && i != k && i != k + 1 ==> nodes[i].next == nodes[i + 1]
    requires forall i :: 0 <= i < |nodes| - 1 && i != k && i != k + 1 ==> nodes[i + 1].prev == nodes[i]
    ensures c.Valid()
  {
    WithoutKeeps(c.head, c.tail, es, m, k);
    var now := c.Nodes();
    FramedWithout(c.head, c.tail, es, k);
    assert c.head == nodes[0] && c.tail == nodes[|nodes| - 1];
    DistinctWithout(nodes, k + 1);
    LinkedWithout(nodes, k);
    forall i | 0 <= i < |now| ensures now[i] in c.Repr {
      if i <= k { assert now[i] == nodes[i]; } else { assert now[i] == nodes[i + 1]; }
    }
  }

  /** Nodes linked except around position k + 1, whose neighbours point at each other, are linked without it. */
  lemma LinkedWithout(ns: seq<Entry>, k: nat)
    requires k + 2 < |ns|
    requires ns[k].next == ns[k + 2] && ns[k + 2].prev == ns[k]
    requires forall i :: 0 <= i < |ns| - 1 && i != k && i != k + 1 ==> ns[i].next == ns[i + 1]
    requires forall i :: 0 <= i < |ns| - 1 && i != k && i != k + 1 ==> ns[i + 1].prev == ns[i]
    ensures Linked(Without(ns, k + 1))
  {
    var r := Without(ns, k + 1);
    forall i | 0 <= i < |r| - 1 ensures r[i].next == r[i + 1] && r[i + 1].prev == r[i] {
      if i < k {
        assert r[i] == ns[i] && r[i + 1] == ns[i + 1];
      } else if i > k {
        assert r[i] == ns[i + 1] && r[i + 1] == ns[i + 2];
      }
    }
  }

  /** Taking entry k out of the entries takes node k + 1 out of the nodes. */
  lemma FramedWithout(h: Entry, t: Entry, es: seq<Entry>, k: nat)
    requires k < |es|
    ensures [h] + Without(es, k) + [t] == Without([h] + es + [t], k + 1)
  {
    var nodes := [h] + es + [t];
    assert nodes[..k + 1] == [h] + es[..k];
    assert nodes[k + 2..] == es[k + 1..] + [t];
  }

  lemma {:induction false} NamesAppend(es: seq<Entry>, m: map<string, Entry>, e: Entry)
    requires NamesAgree(es, m) && e.name !in m
    ensures NamesAgree(es + [e], m[e.name := e])
  {
    var r := es + [e];
    var m' := m[e.name := e];
    forall i | 0 <= i < |r| ensures r[i].name in m' && m'[r[i].name] == r[i] {
      if i < |es| {
        assert r[i] == es[i] && es[i].name in m;
      }
    }
    forall nm | nm in m' ensures exists i :: 0 <= i < |r| && r[i].name == nm {
      if nm == e.name {
        assert r[|es|].name == nm;
      } else {
        var j :| 0 <= j < |es| && es[j].name == nm;
        assert r[j] == es[j];
      }
    }
  }

  /** Putting a node that is not among them just before the last of distinct nodes keeps them distinct. */
  lemma DistinctInsertLast(ns: seq<Entry>, e: Entry)
    requires 0 < |ns| && Distinct(ns) && forall i :: 0 <= i < |ns| ==> ns[i] != e
    ensures Distinct(ns[..|ns| - 1] + [e] + [ns[|ns| - 1]])
  {
    var r := ns[..|ns| - 1] + [e] + [ns[|ns| - 1]];
    var last := |ns| - 1;
    forall i, j | 0 <= i < j < |r| ensures r[i] != r[j] {
      if j < last {
        assert r[i] == ns[i] && r[j] == ns[j];
      } else if j == last {
        assert r[i] == ns[i];
      } else if i < last {
        assert r[i] == ns[i] && r[j] == ns[last];
      }
    }
  }

  /** Nodes linked up to the last two, with e linked between those two, are linked with e. */
  lemma LinkedInsertLast(ns: seq<Entry>, e: Entry)
    requires 2 <= |ns|
    requires ns[|ns| - 2].next == e && e.prev == ns[|ns| - 2]
    requires e.next == ns[|ns| - 1] && ns[|ns| - 1].prev == e
    requires forall i :: 0 <= i < |ns| - 2 ==> ns[i].next == ns[i + 1] && ns[i + 1].prev == ns[i]
    ensures Linked(ns[..|ns| - 1] + [e] + [ns[|ns| - 1]])
  {
    var r := ns[..|ns| - 1] + [e] + [ns[|ns| - 1]];
    forall i | 0 <= i < |r| - 1 ensures r[i].next == r[i + 1] && r[i + 1].prev == r[i] {
      if i < |ns| - 2 {
        assert r[i] == ns[i] && r[i + 1] == ns[i + 1];
      } else if i == |ns| - 2 {
        assert r[i] == ns[i] && r[i + 1] == e;
      }
    }
  }

  /** A filter not held yet, or not a ProtocolFilter, may be appended once. */
  lemma OnceAppend(es: seq<Entry>, e: Entry)
    requires ProtocolFiltersOnce(es) && UserFilters(es) && IsUserFilter(e.filter)
    requires e.filter.Protocol? ==> forall i :: 0 <= i < |es| ==> es[i].filter != e.filter
    ensures ProtocolFiltersOnce(es + [e]) && UserFilters(es + [e])
  {
    var r := es + [e];
    forall i, j | 0 <= i < j < |r| && r[i].filter.Protocol? ensures r[i].filter != r[j].filter {
      if j < |es| {
        assert r[i] == es[i] && r[j] == es[j];
      } else {
        assert r[i] == es[i] && r[j] == e;
      }
    }
  }

  /**
   * A chain whose old nodes are still linked, except that the last entry
   * and the tail now point at a new entry e between them, is valid with it.
   */
  lemma AppendValid<S>(c: DefaultFilterChain<S>, nodes: seq<Entry>, es: seq<Entry>, m: map<string, Entry>, e: Entry)
    requires nodes == [c.head] + es + [c.tail] && c.entries == es + [e]
    requires e.name !in m && c.name2entry == m[e.name := e]
    requires Distinct(nodes) && (forall i :: 0 <= i < |nodes| ==> nodes[i] in c.Repr && nodes[i] != e) && e in c.Repr
    requires c.head.filter == HeadFilter && c.tail.filter == TailFilter
    requires c.head.prev == null && c.tail.next == null
    requires NamesAgree(es, m) && ProtocolFiltersOnce(es) && UserFilters(es) && IsUserFilter(e.filter)
    requires e.filter.Protocol? ==> forall i :: 0 <= i < |es| ==> es[i].filter != e.filter
    requires nodes[|nodes| - 2].next == e && e.prev == nodes[|nodes| - 2]
    requires e.next == c.tail && c.tail.prev == e
    requires forall i :: 0 <= i < |nodes| - 2 ==> nodes[i].next == nodes[i + 1] && nodes[i + 1].prev == nodes[i]
    ensures c.Valid()
  {
    NamesAppend(es, m, e);
    OnceAppend(es, e);
    var now := c.Nodes();
    assert now == nodes[..|nodes| - 1] + [e] + [nodes[|nodes| - 1]];
    DistinctInsertLast(nodes, e);
    LinkedInsertLast(nodes, e);
    assert c.head == nodes[0];
    forall i | 0 <= i < |now| ensures now[i] in c.Repr {
      if i < |nodes| - 1 { assert now[i] == nodes[i]; }
    }
  }

  lemma ThenAssoc(a: Run, b: Run, c: Run)
    ensures Then(Then(a, b), c) == Then(a, Then(b, c))
  {
    if a.thrown.None? && b.thrown.None? {
      assert (a.trace + b.trace) + c.trace == a.trace + (b.trace + c.trace);
    }
  }

  /** One step of clear(): removing the first remaining entry extends the run so far. */
  lemma ClearStep(stages0: seq<Stage>, stages: seq<Stage>, i: nat, r: Run, d: Run)
    requires stages != [] && r.thrown.None?
    requires ClearRun(stages0) == Then(r, ClearRun(stages))
    requires ClearRemoves(stages0) == i + ClearRemoves(stages)
    requires d == Run(RemovalOf(stages[0]).trace, RemovalThrown(RemovalOf(stages[0])))
    ensures ClearRun(stages0) == Then(Then(r, d), ClearRun(stages[1..]))
    ensures d.thrown.None? ==> ClearRemoves(stages0) == i + 1 + ClearRemoves(stages[1..])
    ensures d.thrown.Some? ==> ClearRun(stages0) == Then(r, d)
    ensures RemovalOf(stages[0]).refused.Some? ==> ClearRemoves(stages0) == i
    ensures d.thrown.Some? && RemovalOf(stages[0]).refused.None? ==> ClearRemoves(stages0) == i + 1
  {
    assert ClearRun(stages) == Then(d, ClearRun(stages[1..]));
    ThenAssoc(r, d, ClearRun(stages[1..]));
  }

  class DefaultFilterChain<S> {
    const session: S
    const head: Entry
    const tail: Entry
    /** name2entry: the named entries, by name. */
    var name2entry: map<string, Entry>
    /** The named entries from head to tail. */
    ghost var entries: seq<Entry>
    /** The nodes this chain has linked (unlinked ones may remain). */
    ghost var Repr: set<Entry>

    /** Every node from head to tail. */
    ghost function Nodes(): seq<Entry>
      reads this
    {
      [head] + entries + [tail]
    }

    ghost predicate Valid()
      reads this, Repr
    {
      && (forall i :: 0 <= i < |Nodes()| ==> Nodes()[i] in Repr)
      && head in Repr && tail in Repr
      && head.filter == HeadFilter && tail.filter == TailFilter
      && head.prev == null && tail.next == null
      // the nodes are distinct and linked both ways
      && Distinct(Nodes())
      && Linked(Nodes())
      // named entries hold the user's filters, under their names, a ProtocolFilter at most once
      && UserFilters(entries) && NamesAgree(entries, name2entry) && ProtocolFiltersOnce(entries)
    }

    /** The filters between head and tail, as the dispatch sees them. */
    ghost function Stages(): seq<Stage>
      requires Valid()
      reads this, Repr, ProtocolFiltersOf(entries)
    {
      StagesOf(entries)
    }

    /** The entries are es0 and one more, named n and holding f, just before the tail. */
    ghost predicate Appended(es0: seq<Entry>, m0: map<string, Entry>, n: string, f: Filter)
      reads this
    {
      |entries| == |es0| + 1 && entries[..|es0|] == es0
      && entries[|es0|].name == n && entries[|es0|].filter == f
      && name2entry == m0[n := entries[|es0|]]
    }

    /** The chain holds this filter in some named entry. */
    ghost predicate Holds(f: Filter)
      reads this
    {
      exists i :: 0 <= i < |entries| && entries[i].filter == f
    }

    /** A new chain: head and tail linked to each other, no named entry. */
    constructor(session: S)
      ensures Valid() && fresh(Repr)
      ensures this.session == session && entries == [] && name2entry == map[]
    {
      this.session := session;
      var h := new Entry(null, null, "head", HeadFilter);
      var t := new Entry(h, null, "tail", TailFilter);
      h.next := t;
      head := h;
      tail := t;
      name2entry := map[];
      entries := [];
      new;
      Repr := {h, t};
      assert Nodes() == [h, t];
    }

    /** contains / getEntry: walks the links from head to tail. */
    method Contains(f: Filter) returns (r: bool)
      requires Valid()
      ensures r <==> Holds(f)
    {
      assert Nodes()[0] == head && Nodes()[|Nodes()| - 1] == tail;
      var e := head.next;
      ghost var i := 1;
      while e != tail
        invariant 1 <= i < |Nodes()| && e == Nodes()[i]
        invariant forall j :: 0 <= j < i - 1 ==> entries[j].filter != f
        decreases |Nodes()| - i
      {
        if e.filter == f {
          assert entries[i - 1] == e;
          return true;
        }
        e := e.next;
        i := i + 1;
      }
      assert i == |Nodes()| - 1;
      return false;
    }

    /** The filters between head and tail, read by walking the links. */
    method Snapshot() returns (stages: seq<Stage>)
      requires Valid()
      ensures stages == Stages() == old(Stages())
    {
      stages := [];
      assert Nodes()[0] == head && Nodes()[|Nodes()| - 1] == tail;
      var e := head.next;
      ghost var i := 1;
      while e != tail
        invariant 1 <= i < |Nodes()| && e == Nodes()[i]
        invariant |stages| == i - 1
        invariant forall j :: 0 <= j < i - 1 ==> stages[j] == StageOf(entries[j].filter)
        decreases |Nodes()| - i
      {
        stages := stages + [StageOf(e.filter)];
        e := e.next;
        i := i + 1;
      }
      assert i == |Nodes()| - 1;
    }

    // ------------------------------------------------------ fire methods

    /** fireSessionOpened: the event reaches the tail whatever the filters. */
    method FireSessionOpened(h: IOHandler) returns (r: Run)
      requires Valid()
      ensures r == TailSimple(Opened, h)
    {
      var stages := Snapshot();
      r := FireOpened(stages, h);
    }

    /**
     * fireSessionClosed: the dispatch from the head; when it reached the
     * tail the chain is cleared, and the codec outputs take the state the
     * dispatch left them in.
     */
    method FireSessionClosed(attrs: DefaultAttributeMap, h: IOHandler) returns (r: Dispatch)
      requires Valid() && SeparateOutputs(attrs)
      modifies this, Repr, attrs, OutputObjects(attrs)
      ensures Valid() && Repr == old(Repr)
      ensures r == FireClosed(old(Stages()), old(SlotsOf(attrs)), h)
      ensures SlotsOf(attrs) == r.slots && SeparateOutputs(attrs)
      ensures ClearChain in r.trace ==> entries == old(entries)[ClearRemoves(old(Stages()))..]
      ensures ClearChain !in r.trace ==> entries == old(entries)
    {
      var slots := SlotsOf(attrs);
      var stages := Snapshot();
      r := FireClosed(stages, slots, h);
      if ClearChain in r.trace {
        ClearBeside(attrs);
      }
      ApplySlotsBeside(attrs, r.slots);
    }

    /** The codec outputs take the dispatch's state; the chain does not change. */
    method ApplySlotsBeside(attrs: DefaultAttributeMap, slots: Slots)
      requires Valid() && SeparateOutputs(attrs)
      requires slots.decoderOut.NotAnOutput? ==> SlotOf(attrs, SESSION_DECODER_OUT).NotAnOutput?
      requires slots.encoderOut.NotAnOutput? ==> SlotOf(attrs, SESSION_ENCODER_OUT).NotAnOutput?
      modifies attrs, OutputObjects(attrs)
      ensures Valid() && SlotsOf(attrs) == slots && SeparateOutputs(attrs)
      ensures entries == old(entries) && Repr == old(Repr)
    {
      ApplySlots(attrs, slots);
    }

    /** TailFilter's clear(): the chain changes, the session's attributes do not. */
    method ClearBeside(attrs: DefaultAttributeMap)
      requires Valid() && SeparateOutputs(attrs)
      modifies this, Repr
      ensures Valid() && Repr == old(Repr)
      ensures entries == old(entries)[ClearRemoves(old(Stages()))..]
      ensures SlotsOf(attrs) == old(SlotsOf(attrs)) && SeparateOutputs(attrs)
    {
      var _ := Clear();
    }

    /** fireExceptionCaught: the cause reaches the handler's exceptionCaught. */
    method FireExceptionCaught(cause: Exn, h: IOHandler) returns (r: Run)
      requires Valid()
      ensures r == TailSimple(Caught(cause), h)
    {
      var stages := Snapshot();
      PassSimpleReachesTail(stages, 0, Caught(cause), h);
      r := PassSimple(stages, 0, Caught(cause), h);
    }

    /**
     * fireMessageSent: marks the packet's future written, then tells the
     * handler about the original message; a packet without a future
     * throws a NullPointerException before either.
     */
    method FireMessageSent(packet: WritePacket<S>, h: IOHandler) returns (r: Run)
      requires Valid()
      modifies if packet.future.Some? then {packet.future.value} else {}
      ensures packet.future.None? ==> r == Run([], Some(NPE))
      ensures packet.future.Some? ==>
        r == TailSimple(Sent(packet.origMessage), h)
        && packet.future.value.State() == SetValueSpec(old(packet.future.value.State()), BoolValue(true)).0
    {
      if packet.future.None? {
        return Run([], Some(NPE));
      }
      packet.future.value.SetWritten();
      var stages := Snapshot();
      PassSimpleReachesTail(stages, 0, Sent(packet.origMessage), h);
      r := PassSimple(stages, 0, Sent(packet.origMessage), h);
    }

    /** fireInputClosed */
    method FireInputClosed(h: IOHandler) returns (r: Run)
      requires Valid()
      ensures r == FilterEvents.FireInputClosed(Stages(), h)
    {
      var stages := Snapshot();
      r := FilterEvents.FireInputClosed(stages, h);
    }

    /** fireMessageReceived: the decoders' output states are written back. */
    method FireMessageReceived(msg: Message, attrs: DefaultAttributeMap, h: IOHandler) returns (r: Dispatch)
      requires Valid() && SeparateOutputs(attrs)
      modifies attrs, OutputObjects(attrs)
      ensures r == FireReceived(old(Stages()), msg, old(SlotsOf(attrs)), h)
      ensures SlotsOf(attrs) == r.slots && SeparateOutputs(attrs)
    {
      var slots := SlotsOf(attrs);
      var stages := Snapshot();
      r := FireReceived(stages, msg, slots, h);
      ApplySlots(attrs, r.slots);
    }

    /** fireFilterClose: from the tail to the head, which removes the session from its processor. */
    method FireFilterClose() returns (r: Run)
      requires Valid()
      ensures r == Run([RemoveFromProcessor], None)
    {
      var stages := Snapshot();
      CloseReachesHead(stages, |stages| - 1);
      r := CloseRun(stages, |stages| - 1);
    }

    /**
     * fireFilterWrite: the packet's message is replaced by what the
     * encoders produced; on failure its future is failed with the
     * exception, and the encoder output's state is written back.
     */
    method FireFilterWrite(packet: WritePacket<S>, attrs: DefaultAttributeMap, h: IOHandler) returns (r: WriteRun)
      requires Valid() && SeparateOutputs(attrs)
      modifies packet, attrs, OutputObjects(attrs), if packet.future.Some? then {packet.future.value} else {}
      ensures var w := Write(old(Stages()), |old(Stages())| - 1, old(packet.message), old(SlotsOf(attrs)));
        && r == FireWrite(old(Stages()), old(packet.message), packet.future.Some?, old(SlotsOf(attrs)), h)
        && packet.message == w.message
        && (packet.future.Some? && w.thrown.Some? ==>
              packet.future.value.State() == SetValueSpec(old(packet.future.value.State()), Failure(w.thrown.value)).0)
        && (packet.future.Some? && w.thrown.None? ==> packet.future.value.State() == old(packet.future.value.State()))
      ensures SlotsOf(attrs) == r.slots && SeparateOutputs(attrs)
    {
      var slots := SlotsOf(attrs);
      var stages := Snapshot();
      var w := Write(stages, |stages| - 1, packet.message, slots);
      r := FireWrite(stages, packet.message, packet.future.Some?, slots, h);
      packet.SetMessage(w.message);
      if w.thrown.Some? && packet.future.Some? {
        var _ := packet.future.value.SetException(w.thrown);
      }
      ApplySlots(attrs, r.slots);
    }

    /** fireSessionIdle (the idle count is the session's, raised before this). */
    method FireSessionIdle(status: IdleStatus, h: IOHandler) returns (r: Run)
      requires Valid()
      ensures r == FireIdle(Stages(), status, h)
    {
      var stages := Snapshot();
      r := FireIdle(stages, status, h);
    }

    /**
     * addLast: checkAddable, then register before the tail; a missing
     * name or filter fails before anything changes.
     */
    method AddLast(name: Option<string>, filter: Option<Filter>) returns (o: Outcome)
      requires Valid() && (filter.Some? ==> IsUserFilter(filter.value))
      modifies this, Repr
      ensures Valid() && old(Repr) <= Repr && fresh(Repr - old(Repr))
      ensures o == AddOutcome(name, filter, old(name2entry).Keys, filter.Some? && old(Holds(filter.value)))
      ensures o.Done? ==> Appended(old(entries), old(name2entry), name.value, filter.value)
      ensures o.Threw? ==> entries == old(entries) && name2entry == old(name2entry)
    {
      if name.None? {
        return Threw(NPE);
      }
      var n := name.value;
      if n in name2entry {
        return Threw(Exn(IllegalArgument, "Other filter is using the same name '" + n + "'"));
      }
      if filter.None? {
        return Threw(Exn(IllegalArgument, "filter"));
      }
      o := Register(n, filter.value);
    }

    /**
     * register: onPreAdd (a ProtocolFilter refuses a chain that holds it
     * already), the linking before the tail, then onPostAdd, whose failure
     * unlinks the new entry again.
     */
    method Register(n: string, f: Filter) returns (o: Outcome)
      requires Valid() && n !in name2entry && IsUserFilter(f)
      modifies this, Repr
      ensures Valid() && old(Repr) <= Repr && fresh(Repr - old(Repr))
      ensures o == AddOutcome(Some(n), Some(f), old(name2entry).Keys, old(Holds(f)))
      ensures o.Done? ==> Appended(old(entries), old(name2entry), n, f)
      ensures o.Threw? ==> entries == old(entries) && name2entry == old(name2entry)
    {
      var already := false;
      if f.Protocol? {
        already := Contains(f);
      }
      var pre := HookThrows(HookStage(f), PreAdd, already);
      if pre.Some? {
        return Threw(HookFailure(PreAdd, pre.value));
      }
      o := LinkThenPostAdd(n, f, HookThrows(HookStage(f), PostAdd, already));
    }

    /** register after onPreAdd: the linking, then onPostAdd, whose failure unlinks the entry again. */
    method LinkThenPostAdd(n: string, f: Filter, post: Option<Exn>) returns (o: Outcome)
      requires Valid() && n !in name2entry && IsUserFilter(f)
      requires f.Protocol? ==> !Holds(f)
      modifies this, Repr
      ensures Valid() && old(Repr) <= Repr && fresh(Repr - old(Repr))
      ensures o == if post.Some? then Threw(HookFailure(PostAdd, post.value)) else Done
      ensures o.Done? ==> Appended(old(entries), old(name2entry), n, f)
      ensures o.Threw? ==> entries == old(entries) && name2entry == old(name2entry)
    {
      var e := Register0(n, f);
      if post.Some? {
        UnlinkLast(e);
        assert (old(entries) + [e])[..|old(entries)|] == old(entries);
        assert old(name2entry)[n := e] - {n} == old(name2entry);
        return Threw(HookFailure(PostAdd, post.value));
      }
      assert entries[..|old(entries)|] == old(entries) && entries[|old(entries)|] == e;
      return Done;
    }

    /** register's undo when onPostAdd throws: deregister0 of the entry just linked. */
    method UnlinkLast(e: Entry)
      requires Valid() && entries != [] && e == entries[|entries| - 1]
      modifies this, Repr
      ensures Valid() && Repr == old(Repr)
      ensures entries == old(entries)[..|old(entries)| - 1]
      ensures name2entry == old(name2entry) - {e.name}
    {
      assert Nodes()[|entries|] == e && e.prev == Nodes()[|entries| - 1] && e.next == Nodes()[|entries| + 1];
      Deregister0(|entries| - 1, e);
      assert Without(old(entries), |old(entries)| - 1) == old(entries)[..|old(entries)| - 1];
    }

    /**
     * deregister: onPreRemove may refuse; otherwise the entry is unlinked
     * and onPostRemove runs (a ProtocolFilter disposes its codecs).
     */
    method Deregister(ghost k: nat, e: Entry) returns (r: Run)
      requires Valid() && k < |entries| && entries[k] == e
      modifies this, e.prev, e.next
      ensures Valid() && Repr == old(Repr)
      ensures StagesOf(old(entries)) == old(Stages())
      ensures var rm := RemovalOf(old(StageOf(e.filter)));
        && r == Run(rm.trace, RemovalThrown(rm))
        && (rm.refused.Some? ==> entries == old(entries) && name2entry == old(name2entry))
        && (rm.refused.None? ==> entries == Without(old(entries), k) && name2entry == old(name2entry) - {e.name})
    {
      assert IsUserFilter(e.filter);
      var rm := RemovalOf(StageOf(e.filter));
      if rm.refused.Some? {
        return Run([], rm.refused);
      }
      ghost var es := entries;
      ghost var stages := Stages();
      Deregister0(k, e);
      r := Run(rm.trace, rm.failed);
      forall j | 0 <= j < |es| ensures StagesOf(es)[j] == stages[j] {
        var f := es[j].filter;
        assert stages[j] == old(StageOf(f));
        if f.Protocol? {
          var pf := f.pf;
          assert pf.encoder == old(pf.encoder) && pf.decoder == old(pf.decoder);
        }
      }
    }

    /**
     * clear: deregisters every entry, in chain order; the first hook that
     * throws ends it with that exception.
     */
    method Clear() returns (r: Run)
      requires Valid()
      modifies this, Repr
      ensures Valid() && Repr == old(Repr)
      ensures r == ClearRun(old(Stages()))
      ensures entries == old(entries)[ClearRemoves(old(Stages()))..]
    {
      ghost var stages0 := Stages();
      ghost var es0 := entries;
      r := Run([], None);
      ghost var i: nat := 0;
      while head.next != tail
        invariant Valid() && Repr == old(Repr)
        invariant i <= |es0| && entries == es0[i..]
        invariant r.thrown.None? && ClearRun(stages0) == Then(r, ClearRun(Stages()))
        invariant ClearRemoves(stages0) == i + ClearRemoves(Stages())
        decreases |entries|
      {
        r, i := ClearRound(stages0, es0, i, r);
        if r.thrown.Some? {
          return;
        }
      }
      NoEntriesLeft();
      assert r.trace + [] == r.trace;
    }

    /** The head linked straight to the tail: no named entry is left. */
    lemma NoEntriesLeft()
      requires Valid() && head.next == tail
      ensures entries == [] && Stages() == []
    {
      assert Nodes()[0] == head && Nodes()[1] == head.next;
    }

    /** One turn of clear's loop: the run so far, extended by deregistering the first named entry. */
    method ClearRound(ghost stages0: seq<Stage>, ghost es0: seq<Entry>, ghost i: nat, r: Run) returns (r': Run, ghost i': nat)
      requires Valid() && head.next != tail
      requires i <= |es0| && entries == es0[i..]
      requires r.thrown.None? && ClearRun(stages0) == Then(r, ClearRun(Stages()))
      requires ClearRemoves(stages0) == i + ClearRemoves(Stages())
      modifies this, Repr
      ensures Valid() && Repr == old(Repr) && i' <= |es0| && entries == es0[i'..]
      ensures r'.thrown.None? ==>
        i' == i + 1 && ClearRun(stages0) == Then(r', ClearRun(Stages()))
        && ClearRemoves(stages0) == i' + ClearRemoves(Stages())
      ensures r'.thrown.Some? ==> r' == ClearRun(stages0) && i' == ClearRemoves(stages0)
    {
      ghost var stages := Stages();
      var d := DeregisterFirst();
      ClearStep(stages0, stages, i, r, d);
      r' := Then(r, d);
      i' := i;
      if RemovalOf(stages[0]).refused.None? {
        assert es0[i..][1..] == es0[i + 1..];
        i' := i + 1;
      }
    }

    /** One round of clear: deregisters the first named entry. */
    method DeregisterFirst() returns (d: Run)
      requires Valid() && head.next != tail
      modifies this, Repr
      ensures Valid() && Repr == old(Repr)
      ensures old(entries) != [] && old(Stages()) != []
      ensures var rm := RemovalOf(old(Stages())[0]);
        && d == Run(rm.trace, RemovalThrown(rm))
        && (rm.refused.Some? ==> entries == old(entries))
        && (rm.refused.None? ==> entries == old(entries)[1..] && Stages() == old(Stages())[1..])
    {
      assert Nodes()[0] == head && Nodes()[1] == head.next && Nodes()[|Nodes()| - 1] == tail;
      var e := head.next;
      assert entries != [] && e == entries[0] && e.prev == head && e.next == Nodes()[2];
      ghost var stages := Stages();
      assert stages[0] == StageOf(e.filter);
      d := Deregister(0, e);
      if RemovalOf(stages[0]).refused.None? {
        assert entries == old(entries)[1..] by {
          assert Without(old(entries), 0) == old(entries)[1..];
        }
        assert StagesOf(old(entries))[1..] == StagesOf(old(entries)[1..]);
      }
    }

    /** register's linking: a new entry for name and filter goes just before the tail. */
    method Register0(n: string, f: Filter) returns (e: Entry)
      requires Valid() && n !in name2entry && IsUserFilter(f)
      requires f.Protocol? ==> !Holds(f)
      modifies this, Repr
      ensures Valid() && Repr == old(Repr) + {e} && fresh(e)
      ensures e.name == n && e.filter == f
      ensures entries == old(entries) + [e] && name2entry == old(name2entry)[n := e]
    {
      ghost var nodes := Nodes();
      ghost var es := entries;
      ghost var m := name2entry;
      assert Linked(nodes) && Distinct(nodes);
      assert nodes[|nodes| - 1] == tail && nodes[|nodes| - 2].next == tail;
      var p := tail.prev;
      e := new Entry(p, p.next, n, f);
      assert forall i :: 0 <= i < |nodes| ==> nodes[i] != e;
      InsertBefore(p, e, tail, nodes);
      name2entry := name2entry[n := e];
      entries := entries + [e];
      Repr := Repr + {e};
      AppendValid(this, nodes, es, m, e);
    }

    /** deregister0: splices the entry at position k out and forgets its name. */
    method Deregister0(ghost k: nat, e: Entry)
      requires Valid() && k < |entries| && entries[k] == e
      modifies this, e.prev, e.next
      ensures Valid() && Repr == old(Repr)
      ensures forall pf: ProtocolFilter :: old(allocated(pf)) ==> pf.encoder == old(pf.encoder) && pf.decoder == old(pf.decoder)
      ensures entries == Without(old(entries), k)
      ensures name2entry == old(name2entry) - {e.name}
    {
      ghost var nodes := Nodes();
      assert Linked(nodes) && Distinct(nodes);
      var p := e.prev;
      var n := e.next;
      assert nodes[k + 1] == e;
      assert p == nodes[k] && n == nodes[k + 2];
      Splice(p, n, nodes, k);
      name2entry := name2entry - {e.name};
      entries := Without(entries, k);
      UnlinkValid(this, nodes, old(entries), old(name2entry), k);
    }
  }
}
