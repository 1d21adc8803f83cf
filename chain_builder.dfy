// FilterChainBuilder: an ordered list of named filters that builds a
// session's chain by calling addLast on it, in order, for every entry the
// optional matcher accepts.
module ChainBuilders {
  import opened Common
  import opened FilterEvents
  import opened FilterChains

  /** The filters a caller can hand to the builder. */
  type UserFilter = f: Filter | IsUserFilter(f) witness Adapter(0, map[])

  /** A builder entry (EntryImpl): a name and a filter; its prev and next entries are always null. */
  datatype BuilderEntry = BuilderEntry(name: string, filter: UserFilter)
  {
    function NextEntry(): Option<BuilderEntry> { None }
    function PrevEntry(): Option<BuilderEntry> { None }
  }

  /** EntryImpl's constructor checks: the name first (null, "head" or "tail"), then the filter. */
  function EntryCheck(name: Option<string>, filter: Option<Filter>): (o: Outcome)
    ensures o.Done? <==> name.Some? && name.value != "head" && name.value != "tail" && filter.Some?
    ensures o.Threw? ==> o.exn.kind == IllegalArgument
  {
    if name.None? || name.value == "head" || name.value == "tail" then Threw(Exn(IllegalArgument, "name"))
    else if filter.None? then Threw(Exn(IllegalArgument, "filter"))
    else Done
  }

  /** The entries a chain holds, as name and filter. */
  function Named(es: seq<Entry>): (r: seq<BuilderEntry>)
    requires UserFilters(es)
    ensures |r| == |es|
    ensures forall i :: 0 <= i < |es| ==> r[i] == BuilderEntry(es[i].name, es[i].filter)
  {
    seq(|es|, i requires 0 <= i < |es| => BuilderEntry(es[i].name, es[i].filter))
  }

  /** The filters a chain holds, in order. */
  function FiltersOf(es: seq<Entry>): (r: seq<Filter>)
    ensures |r| == |es|
    ensures forall i :: 0 <= i < |es| ==> r[i] == es[i].filter
  {
    seq(|es|, i requires 0 <= i < |es| => es[i].filter)
  }

  /** The entries buildChain passes to addLast: all of them, or those the matcher accepts, in order. */
  function Selected<S>(es: seq<BuilderEntry>, matcher: Option<(S, string) -> bool>, session: S): (r: seq<BuilderEntry>)
    ensures |r| <= |es|
    ensures matcher.None? ==> r == es
  {
    if es == [] then []
    else (if matcher.None? || matcher.value(session, es[0].name) then [es[0]] else []) + Selected(es[1..], matcher, session)
  }

  /** Selected keeps exactly the entries the matcher accepts. */
  lemma {:induction false} SelectedMembers<S>(es: seq<BuilderEntry>, matcher: Option<(S, string) -> bool>, session: S)
    ensures forall e :: e in Selected(es, matcher, session) <==> e in es && (matcher.None? || matcher.value(session, e.name))
  {
    if es != [] {
      SelectedMembers(es[1..], matcher, session);
      assert es == [es[0]] + es[1..];
    }
  }

  lemma {:induction false} SelectedAppend<S>(a: seq<BuilderEntry>, b: seq<BuilderEntry>, matcher: Option<(S, string) -> bool>, session: S)
    ensures Selected(a + b, matcher, session) == Selected(a, matcher, session) + Selected(b, matcher, session)
  {
    if a != [] {
      assert (a + b)[0] == a[0] && (a + b)[1..] == a[1..] + b;
      SelectedAppend(a[1..], b, matcher, session);
    } else {
      assert a + b == b;
    }
  }

  /**
   * The addLast calls of buildChain on a chain already using the given
   * names and holding the given filters: the outcome of the first call that
   * throws (or Done) and how many entries went in before it.
   */
  function BuildRun(sel: seq<BuilderEntry>, names: set<string>, held: seq<Filter>): (r: (Outcome, nat))
    ensures r.1 <= |sel|
    ensures r.0.Done? <==> r.1 == |sel|
  {
    if sel == [] then (Done, 0)
    else
      var o := AddOutcome(Some(sel[0].name), Some(sel[0].filter), names, sel[0].filter in held);
      if o.Threw? then (o, 0)
      else
        var rest := BuildRun(sel[1..], names + {sel[0].name}, held + [sel[0].filter]);
        (rest.0, rest.1 + 1)
  }

  /** The entries from position k on: entry k, if selected, then the rest. */
  lemma SelectedStep<S>(es: seq<BuilderEntry>, k: nat, matcher: Option<(S, string) -> bool>, session: S)
    requires k < |es|
    ensures Selected(es[k..], matcher, session) ==
      (if matcher.None? || matcher.value(session, es[k].name) then [es[k]] else []) + Selected(es[k + 1..], matcher, session)
  {
    assert es[k..][0] == es[k] && es[k..][1..] == es[k + 1..];
  }

  /** The first entry's addLast, then the rest unless it threw. */
  lemma BuildRunStep(e: BuilderEntry, tail: seq<BuilderEntry>, names: set<string>, held: seq<Filter>)
    ensures var o := AddOutcome(Some(e.name), Some(e.filter), names, e.filter in held);
      BuildRun([e] + tail, names, held) ==
        if o.Threw? then (o, 0)
        else (BuildRun(tail, names + {e.name}, held + [e.filter]).0, BuildRun(tail, names + {e.name}, held + [e.filter]).1 + 1)
  {
    assert ([e] + tail)[0] == e && ([e] + tail)[1..] == tail;
  }

  /**
   * buildChain's loop after the entries before position k: added went in,
   * and the run of the whole build is the rest's run on a chain with the
   * current names and filters, shifted by what went in.
   */
  ghost predicate BuildInv<S>(es: seq<BuilderEntry>, k: nat, matcher: Option<(S, string) -> bool>, session: S,
                              names: set<string>, held: seq<Filter>, added: seq<BuilderEntry>,
                              sel: seq<BuilderEntry>, run: (Outcome, nat))
    requires k <= |es|
  {
    && sel == added + Selected(es[k..], matcher, session)
    && var rest := BuildRun(Selected(es[k..], matcher, session), names, held);
       run == (rest.0, |added| + rest.1)
  }

  lemma BuildInvInit<S>(es: seq<BuilderEntry>, matcher: Option<(S, string) -> bool>, session: S, names: set<string>, held: seq<Filter>)
    ensures BuildInv(es, 0, matcher, session, names, held, [], Selected(es, matcher, session),
                     BuildRun(Selected(es, matcher, session), names, held))
  {
    assert es[0..] == es;
  }

  /** One turn of the loop that skips entry k: nothing changes but the position. */
  lemma BuildInvSkip<S>(es: seq<BuilderEntry>, k: nat, matcher: Option<(S, string) -> bool>, session: S,
                        names: set<string>, held: seq<Filter>, added: seq<BuilderEntry>,
                        sel: seq<BuilderEntry>, run: (Outcome, nat))
    requires k < |es|
    requires BuildInv(es, k, matcher, session, names, held, added, sel, run)
    requires !(matcher.None? || matcher.value(session, es[k].name))
    ensures BuildInv(es, k + 1, matcher, session, names, held, added, sel, run)
  {
    SelectedStep(es, k, matcher, session);
    var tail := Selected(es[k + 1..], matcher, session);
    assert Selected(es[k..], matcher, session) == tail;
    assert sel == added + tail;
  }

  /** One turn of the loop whose addLast throws: that is the whole build's outcome. */
  lemma BuildInvThrow<S>(es: seq<BuilderEntry>, k: nat, matcher: Option<(S, string) -> bool>, session: S,
                         names: set<string>, held: seq<Filter>, added: seq<BuilderEntry>,
                         sel: seq<BuilderEntry>, run: (Outcome, nat))
    requires k < |es|
    requires BuildInv(es, k, matcher, session, names, held, added, sel, run)
    requires matcher.None? || matcher.value(session, es[k].name)
    requires AddOutcome(Some(es[k].name), Some(es[k].filter), names, es[k].filter in held).Threw?
    ensures run == (AddOutcome(Some(es[k].name), Some(es[k].filter), names, es[k].filter in held), |added|)
    ensures sel[..|added|] == added
  {
    var e := es[k];
    SelectedStep(es, k, matcher, session);
    var tail := Selected(es[k + 1..], matcher, session);
    assert Selected(es[k..], matcher, session) == [e] + tail;
    BuildRunStep(e, tail, names, held);
    assert sel[..|added|] == added;
  }

  /** One turn of the loop whose addLast adds entry k to the chain. */
  lemma BuildInvAdd<S>(es: seq<BuilderEntry>, k: nat, matcher: Option<(S, string) -> bool>, session: S,
                       names: set<string>, held: seq<Filter>, added: seq<BuilderEntry>,
                       sel: seq<BuilderEntry>, run: (Outcome, nat))
    requires k < |es|
    requires BuildInv(es, k, matcher, session, names, held, added, sel, run)
    requires matcher.None? || matcher.value(session, es[k].name)
    requires AddOutcome(Some(es[k].name), Some(es[k].filter), names, es[k].filter in held).Done?
    ensures BuildInv(es, k + 1, matcher, session, names + {es[k].name}, held + [es[k].filter], added + [es[k]], sel, run)
  {
    var e := es[k];
    var tail := Selected(es[k + 1..], matcher, session);
    var rest := BuildRun(tail, names + {e.name}, held + [e.filter]);
    assert Selected(es[k..], matcher, session) == [e] + tail by {
      SelectedStep(es, k, matcher, session);
    }
    assert BuildRun([e] + tail, names, held) == (rest.0, rest.1 + 1) by {
      BuildRunStep(e, tail, names, held);
    }
    assert sel == (added + [e]) + tail;
  }

  lemma BuildInvEnd<S>(es: seq<BuilderEntry>, matcher: Option<(S, string) -> bool>, session: S,
                       names: set<string>, held: seq<Filter>, added: seq<BuilderEntry>,
                       sel: seq<BuilderEntry>, run: (Outcome, nat))
    requires BuildInv(es, |es|, matcher, session, names, held, added, sel, run)
    ensures run == (Done, |added|) && sel[..|added|] == added
  {
    assert es[|es|..] == [];
    assert sel == added;
  }

  /** A filter whose add hooks never throw when it is not in the chain yet. */
  predicate AddsCleanly(f: Filter) {
    IsUserFilter(f) && (f.Adapter? ==> PreAdd !in f.hookFailures && PostAdd !in f.hookFailures)
  }

  /**
   * Entries with fresh, distinct names whose filters add cleanly and whose
   * ProtocolFilters are neither in the chain nor repeated all go in.
   */
  lemma {:induction false} BuildRunAddsAll(sel: seq<BuilderEntry>, names: set<string>, held: seq<Filter>)
    requires forall i :: 0 <= i < |sel| ==> AddsCleanly(sel[i].filter) && sel[i].name !in names
    requires forall i, j :: 0 <= i < j < |sel| ==> sel[i].name != sel[j].name
    requires forall i :: 0 <= i < |sel| && sel[i].filter.Protocol? ==> sel[i].filter !in held
    requires forall i, j :: 0 <= i < j < |sel| && sel[i].filter.Protocol? ==> sel[i].filter != sel[j].filter
    ensures BuildRun(sel, names, held) == (Done, |sel|)
  {
    if sel != [] {
      var f := sel[0].filter;
      assert HookThrows(HookStage(f), PreAdd, f in held).None?;
      assert HookThrows(HookStage(f), PostAdd, f in held).None?;
      var held' := held + [f];
      forall i | 0 <= i < |sel[1..]| && sel[1..][i].filter.Protocol? ensures sel[1..][i].filter !in held' {
        assert sel[1..][i] == sel[i + 1];
      }
      forall i | 0 <= i < |sel[1..]| ensures sel[1..][i].name !in names + {sel[0].name} {
        assert sel[1..][i] == sel[i + 1];
      }
      BuildRunAddsAll(sel[1..], names + {sel[0].name}, held');
    }
  }

  /** A name already in use stops the build at that entry, with IllegalArgumentException. */
  lemma BuildRunStopsAtUsedName(sel: seq<BuilderEntry>, names: set<string>, held: seq<Filter>)
    requires sel != [] && sel[0].name in names
    ensures BuildRun(sel, names, held).0.Threw? && BuildRun(sel, names, held).0.exn.kind == IllegalArgument
    ensures BuildRun(sel, names, held).1 == 0
  {
  }

  class FilterChainBuilder {
    /** The entries, in the order they were added. */
    var entries: seq<BuilderEntry>

    /** Distinct names, none of them "head" or "tail", each with a user filter. */
    ghost predicate Valid()
      reads this
    {
      && (forall i, j :: 0 <= i < j < |entries| ==> entries[i].name != entries[j].name)
      && (forall i :: 0 <= i < |entries| ==>
            entries[i].name != "head" && entries[i].name != "tail")
    }

    constructor()
      ensures Valid() && entries == []
    {
      entries := [];
    }

    /** contains(name) / getEntry: the entries are searched in order; null matches nothing. */
    method Contains(name: Option<string>) returns (r: bool)
      ensures r <==> name.Some? && exists i :: 0 <= i < |entries| && entries[i].name == name.value
    {
      if name.None? {
        return false;
      }
      var k := 0;
      while k < |entries|
        invariant 0 <= k <= |entries|
        invariant forall i :: 0 <= i < k ==> entries[i].name != name.value
      {
        if entries[k].name == name.value {
          return true;
        }
        k := k + 1;
      }
      return false;
    }

    /**
     * add: the entry's checks, then register at the end, which refuses a
     * name already in use.
     */
    method Add(name: Option<string>, filter: Option<UserFilter>) returns (o: Outcome)
      requires Valid()
      modifies this
      ensures Valid()
      ensures o.Done? <==> EntryCheck(name, filter).Done? && forall i :: 0 <= i < |old(entries)| ==> old(entries)[i].name != name.value
      ensures o.Threw? ==> o.exn.kind == IllegalArgument && entries == old(entries)
      ensures o.Done? ==> entries == old(entries) + [BuilderEntry(name.value, filter.value)]
    {
      o := EntryCheck(name, filter);
      if o.Threw? {
        return;
      }
      var used := Contains(name);
      if used {
        return Threw(Exn(IllegalArgument, "Other filter is using the same name: " + name.value));
      }
      entries := entries + [BuilderEntry(name.value, filter.value)];
    }

    /** clear: no entry is left. */
    method Clear()
      modifies this
      ensures Valid() && entries == []
    {
      entries := [];
    }

    /**
     * buildChain: addLast on the chain for each entry, in order, when there
     * is no matcher or the matcher accepts the chain's session and the
     * entry's name; the first addLast that throws ends it.
     */
    method BuildChain<S>(matcher: Option<(S, string) -> bool>, chain: DefaultFilterChain<S>) returns (o: Outcome)
      requires Valid() && chain.Valid()
      modifies chain, chain.Repr
      ensures chain.Valid() && fresh(chain.Repr - old(chain.Repr))
      ensures var sel := Selected(old(entries), matcher, chain.session);
        var run := BuildRun(sel, old(chain.name2entry).Keys, FiltersOf(old(chain.entries)));
        && o == run.0
        && Named(chain.entries) == Named(old(chain.entries)) + sel[..run.1]
    {
      var es := entries;
      ghost var sel := Selected(es, matcher, chain.session);
      ghost var run := BuildRun(sel, chain.name2entry.Keys, FiltersOf(chain.entries));
      BuildInvInit(es, matcher, chain.session, chain.name2entry.Keys, FiltersOf(chain.entries));
      o := BuildLoop(es, matcher, chain, sel, run);
    }
  }

  /** The loop of buildChain over the entries es, which select sel and run as run. */
  method BuildLoop<S>(es: seq<BuilderEntry>, matcher: Option<(S, string) -> bool>, chain: DefaultFilterChain<S>,
                      ghost sel: seq<BuilderEntry>, ghost run: (Outcome, nat)) returns (o: Outcome)
    requires chain.Valid()
    requires BuildInv(es, 0, matcher, chain.session, chain.name2entry.Keys, FiltersOf(chain.entries), [], sel, run)
    modifies chain, chain.Repr
    ensures chain.Valid() && fresh(chain.Repr - old(chain.Repr))
    ensures o == run.0 && Named(chain.entries) == Named(old(chain.entries)) + sel[..run.1]
  {
    ghost var names := chain.name2entry.Keys;
    ghost var held := FiltersOf(chain.entries);
    ghost var named0 := Named(chain.entries);
    ghost var added: seq<BuilderEntry> := [];
    var k := 0;
    while k < |es|
      invariant 0 <= k <= |es| && chain.Valid() && fresh(chain.Repr - old(chain.Repr))
      invariant names == chain.name2entry.Keys && held == FiltersOf(chain.entries)
      invariant Named(chain.entries) == named0 + added
      invariant BuildInv(es, k, matcher, chain.session, names, held, added, sel, run)
    {
      ghost var repr := chain.Repr;
      o, names, held, added := BuildTurn(es, k, matcher, chain, names, held, added, sel, run, named0);
      assert chain.Repr - old(chain.Repr) <= (chain.Repr - repr) + (repr - old(chain.Repr));
      if o.Threw? {
        return;
      }
      k := k + 1;
    }
    BuildInvEnd(es, matcher, chain.session, names, held, added, sel, run);
    o := Done;
  }

  /**
   * One turn of buildChain's loop: entry k goes to addLast when there is no
   * matcher or the matcher accepts it; an addLast that throws ends the build.
   */
  method BuildTurn<S>(es: seq<BuilderEntry>, k: nat, matcher: Option<(S, string) -> bool>, chain: DefaultFilterChain<S>,
                      ghost names: set<string>, ghost held: seq<Filter>, ghost added: seq<BuilderEntry>,
                      ghost sel: seq<BuilderEntry>, ghost run: (Outcome, nat), ghost named0: seq<BuilderEntry>)
    returns (o: Outcome, ghost names': set<string>, ghost held': seq<Filter>, ghost added': seq<BuilderEntry>)
    requires k < |es| && chain.Valid()
    requires names == chain.name2entry.Keys && held == FiltersOf(chain.entries)
    requires Named(chain.entries) == named0 + added
    requires BuildInv(es, k, matcher, chain.session, names, held, added, sel, run)
    modifies chain, chain.Repr
    ensures chain.Valid() && fresh(chain.Repr - old(chain.Repr))
    ensures o.Threw? ==> run == (o, |added|) && Named(chain.entries) == named0 + sel[..run.1]
    ensures o.Done? ==>
      names' == chain.name2entry.Keys && held' == FiltersOf(chain.entries)
      && Named(chain.entries) == named0 + added'
      && BuildInv(es, k + 1, matcher, chain.session, names', held', added', sel, run)
  {
    var e := es[k];
    names', held', added' := names, held, added;
    if matcher.None? || matcher.value(chain.session, e.name) {
      o := AddOneBuilt(e, chain);
      if o.Threw? {
        BuildInvThrow(es, k, matcher, chain.session, names, held, added, sel, run);
        return;
      }
      BuildInvAdd(es, k, matcher, chain.session, names, held, added, sel, run);
      names', held', added' := names + {e.name}, held + [e.filter], added + [e];
    } else {
      o := Done;
      BuildInvSkip(es, k, matcher, chain.session, names, held, added, sel, run);
    }
  }

  /** One addLast of buildChain. */
  method AddOneBuilt<S>(e: BuilderEntry, chain: DefaultFilterChain<S>) returns (o: Outcome)
    requires chain.Valid()
    modifies chain, chain.Repr
    ensures chain.Valid() && old(chain.Repr) <= chain.Repr && fresh(chain.Repr - old(chain.Repr))
    ensures o == AddOutcome(Some(e.name), Some(e.filter), old(chain.name2entry).Keys, e.filter in FiltersOf(old(chain.entries)))
    ensures o.Threw? ==> chain.entries == old(chain.entries) && chain.name2entry == old(chain.name2entry)
    ensures o.Done? ==>
      chain.name2entry.Keys == old(chain.name2entry).Keys + {e.name}
      && FiltersOf(chain.entries) == FiltersOf(old(chain.entries)) + [e.filter]
      && Named(chain.entries) == Named(old(chain.entries)) + [e]
  {
    HeldIsIn(chain.entries, e.filter);
    o := chain.AddLast(Some(e.name), Some(e.filter));
    if o.Done? {
      AppendedLists(old(chain.entries), chain.entries, e);
    }
  }

  /** Some entry holds f exactly when f is among the entries' filters. */
  lemma HeldIsIn(es: seq<Entry>, f: Filter)
    ensures (exists i :: 0 <= i < |es| && es[i].filter == f) <==> f in FiltersOf(es)
  {
    if f in FiltersOf(es) {
      var i :| 0 <= i < |es| && FiltersOf(es)[i] == f;
      assert es[i].filter == f;
    }
  }

  /** One entry more at the end is one filter and one named entry more at the end. */
  lemma AppendedLists(es: seq<Entry>, es': seq<Entry>, e: BuilderEntry)
    requires |es'| == |es| + 1 && es'[..|es|] == es && es'[|es|].name == e.name && es'[|es|].filter == e.filter
    requires UserFilters(es')
    ensures UserFilters(es)
    ensures FiltersOf(es') == FiltersOf(es) + [e.filter]
    ensures Named(es') == Named(es) + [e]
  {
    assert forall i :: 0 <= i < |es| ==> es'[i] == es[i];
  }
}
