/** Which reconciles a stored status builds on, over every run of the state machine: a reconcile
    starts from the status it read in the cache, and its write replaces whatever the store holds by
    then. */
module StatusLineage {
  import opened GoStrings
  import opened DnsClass
  import opened DnsClassController
  import opened StatusHistory
  import opened StatusConvergence

  /** The reconciles behind a status: the one that wrote it, before it the one that wrote the status
      it read, and so on. */
  ghost function Rounds(o: Object): seq<Round>
    decreases o
  {
    match o.origin
    case Created => []
    case Written(work) => Rounds(work.read) + [work.AsRound()]
  }

  lemma {:induction false} SoundStatusIsRun(o: Object)
    requires Sound(o)
    ensures o.status == Run(NO_STATUS, Rounds(o))
    decreases o
  {
    if o.origin.Written? {
      SoundStatusIsRun(o.origin.work.read);
      var rounds := Rounds(o.origin.work.read);
      assert Rounds(o)[..|rounds|] == rounds;
    }
  }

  lemma ObjectsAreSound(steps: seq<Step>, o: Object)
    requires IsRun(INIT, steps) && Some(o) in History(After(INIT, steps))
    ensures Sound(o)
  {
    ReachableKeepsInv(steps);
    var s := After(INIT, steps);
    var i :| 0 <= i < |History(s)| && History(s)[i] == Some(o);
    assert Known(History(s)[i].value, s.versions);
  }

  /** Over every interleaving, whatever is stored, under way to the cache or in it: a class without
      a written status has none; a written one is "error" exactly if the reconcile that wrote it
      failed and "ready" otherwise; for policy None ready means discovered fields; there is one
      condition for each outcome among the reconciles behind the status and no other; and there are
      discovered fields exactly if one of these reconciles created them. */
  lemma StatusOfAnyRun(steps: seq<Step>, o: Object)
    requires IsRun(INIT, steps) && Some(o) in History(After(INIT, steps))
    ensures o.status == Run(NO_STATUS, Rounds(o))
    ensures o.origin.Created? ==> o.status == NO_STATUS
    ensures o.origin.Written? ==>
      && o.status.state == (if o.origin.work.Fails() then STATE_ERROR else STATE_READY)
      && (o.origin.work.read.spec.policy == NONE && o.status.state == STATE_READY ==> o.status.discovered.Some?)
    ensures KindsTell(Conditions(o.status), Rounds(o))
    ensures o.status.discovered.Some? <==> exists r :: r in Rounds(o) && Creates(r)
  {
    ObjectsAreSound(steps, o);
    SoundStatusIsRun(o);
    DiscoveredExactlyOnceCreated(NO_STATUS, Rounds(o));
    KindsAfterRun(Rounds(o));
    if o.origin.Written? {
      StoredStatusInvariant(Rounds(o));
    }
  }

  /** And discovered fields hold what was extracted last among these reconciles, from the first one
      that created fields on; nothing is left of those before it. */
  lemma FieldsOfAnyRun(steps: seq<Step>, o: Object, first: nat)
    requires IsRun(INIT, steps) && Some(o) in History(After(INIT, steps))
    requires first < |Rounds(o)| && Creates(Rounds(o)[first])
    requires forall i :: 0 <= i < first ==> !Creates(Rounds(o)[i])
    ensures o.status.discovered.Some?
    ensures o.status.discovered.value.clusterDomain == LastDomain(Rounds(o)[first..], "")
    ensures Elements(o.status.discovered.value.nameservers) == Elements(LastNameservers(Rounds(o)[first..], None))
  {
    ObjectsAreSound(steps, o);
    SoundStatusIsRun(o);
    NothingIsRememberedBefore(NO_STATUS, Rounds(o), first);
  }

  /** A reconcile reads this object or an earlier one; with the same `since`, the same spec. */
  lemma ReadIsOlder(steps: seq<Step>, o: Object)
    requires IsRun(INIT, steps) && Some(o) in History(After(INIT, steps)) && o.origin.Written?
    ensures Upto(o.origin.work.read, o)
  {
    ObjectsAreSound(steps, o);
  }

  /** A settled status for policy None holds what the configurations gave its reconcile, and a class
      whose placeholders use a field was given it. An empty list of nameservers is stored as none. */
  lemma SettledHoldsWhatWasGiven(o: Object)
    requires Settled(o) && o.spec.policy == "None"
    ensures var fields, first, second := o.status.discovered, o.origin.work.first, o.origin.work.second;
            && fields.Some?
            && (forall domain :: GivesDomain(first, domain) ==> fields.value.clusterDomain == domain)
            && ("clusterDomain" in TemplateKeys(o.spec) ==> GivesDomain(first, fields.value.clusterDomain))
            && (forall servers :: GivesServers(second, servers) ==>
                  fields.value.nameservers == if servers == [] then None else Some(servers))
            && ("nameservers" in TemplateKeys(o.spec) ==> exists servers :: GivesServers(second, servers))
  {
    var work := o.origin.work;
    DiscoversWhatIsGiven(work.AsRound(), work.read.status);
    FailsExactly(work.AsRound());
  }

  /** So over every run: a class that is at rest holds what it was given. */
  lemma QuiescentHoldsWhatWasGiven(steps: seq<Step>)
    requires IsRun(INIT, steps) && Quiescent(After(INIT, steps)) && !After(INIT, steps).abandoned
    requires After(INIT, steps).store.Some? && After(INIT, steps).store.value.spec.policy == "None"
    ensures var o := After(INIT, steps).store.value;
            && o.origin.Written? && o.status.state == "ready" && o.status.discovered.Some?
            && (forall domain :: GivesDomain(o.origin.work.first, domain) ==>
                  o.status.discovered.value.clusterDomain == domain)
            && ("clusterDomain" in TemplateKeys(o.spec) ==>
                  GivesDomain(o.origin.work.first, o.status.discovered.value.clusterDomain))
            && (forall servers :: GivesServers(o.origin.work.second, servers) ==>
                  o.status.discovered.value.nameservers == if servers == [] then None else Some(servers))
  {
    QuiescentMeansSettled(steps);
    SettledHoldsWhatWasGiven(After(INIT, steps).store.value);
  }

  // ---------- the moments of a run ----------

  /** A run with the states it passes. */
  ghost predicate IsTrace(states: seq<State>, steps: seq<Step>) {
    && |states| == |steps| + 1
    && states[0] == INIT
    && forall i {:trigger steps[i]} :: 0 <= i < |steps| ==>
         Enabled(states[i], steps[i]) && states[i + 1] == Next(states[i], steps[i])
  }

  /** Every run has its states. */
  lemma TraceOf(steps: seq<Step>) returns (states: seq<State>)
    requires IsRun(INIT, steps)
    ensures IsTrace(states, steps) && states[|steps|] == After(INIT, steps)
  {
    states := StatesFrom(INIT, steps);
  }

  lemma {:induction false} StatesFrom(s: State, steps: seq<Step>) returns (states: seq<State>)
    requires IsRun(s, steps)
    ensures |states| == |steps| + 1 && states[0] == s && states[|steps|] == After(s, steps)
    ensures forall i {:trigger steps[i]} :: 0 <= i < |steps| ==>
              Enabled(states[i], steps[i]) && states[i + 1] == Next(states[i], steps[i])
    decreases |steps|
  {
    states := [s];
    if steps != [] {
      var rest := StatesFrom(Next(s, steps[0]), steps[1..]);
      states := [s] + rest;
      forall i {:trigger steps[i]} | 0 <= i < |steps|
        ensures Enabled(states[i], steps[i]) && states[i + 1] == Next(states[i], steps[i])
      {
        assert i > 0 ==> steps[i] == steps[1..][i - 1];
      }
    }
  }

  // ---------- every landing counts, exactly if each replaces what it read ----------

  /** The rounds whose status landed since the class was created. */
  ghost function Landed(states: seq<State>, steps: seq<Step>, k: nat): seq<Round>
    requires IsTrace(states, steps) && k <= |steps|
  {
    if k == 0 then []
    else if steps[k - 1].Create? then []
    else if LandsAt(states, steps, k - 1) then
      Landed(states, steps, k - 1) + [states[k - 1].phase.work.AsRound()]
    else Landed(states, steps, k - 1)
  }

  ghost predicate LandsAt(states: seq<State>, steps: seq<Step>, k: nat)
    requires IsTrace(states, steps) && k < |steps|
  {
    steps[k].Update? && Lands(states[k])
  }

  /** The status that lands builds on the one it replaces. */
  ghost predicate ReplacesWhatItRead(s: State)
    requires Lands(s)
  {
    Rounds(s.phase.work.read) == Rounds(s.store.value)
  }

  ghost predicate LineageIs(o: Option<Object>, rounds: seq<Round>) {
    o.Some? ==> Rounds(o.value) == rounds
  }

  lemma LineageNext(s: State, step: Step)
    requires Enabled(s, step)
    ensures var next := Next(s, step);
            if step.Update? && Lands(s) then
              next.store.Some? && Rounds(next.store.value) == Rounds(s.phase.work.read) + [s.phase.work.AsRound()]
            else if step.Create? then LineageIs(next.store, [])
            else next.store.Some? ==> s.store.Some? && Rounds(next.store.value) == Rounds(s.store.value)
  {
  }

  lemma {:induction false} CurrentLandings(states: seq<State>, steps: seq<Step>, k: nat)
    requires IsTrace(states, steps) && k <= |steps|
    requires forall i :: 0 <= i < k && LandsAt(states, steps, i) ==> ReplacesWhatItRead(states[i])
    ensures LineageIs(states[k].store, Landed(states, steps, k))
    decreases k
  {
    if k > 0 {
      CurrentLandings(states, steps, k - 1);
      LineageNext(states[k - 1], steps[k - 1]);
      assert LandsAt(states, steps, k - 1) ==> ReplacesWhatItRead(states[k - 1]);
    }
  }

  /** At every moment the stored status is made by all rounds that landed since the creation,
      exactly if each landing replaces the status its reconcile had read. */
  lemma StatusIsEveryLanding(states: seq<State>, steps: seq<Step>)
    requires IsTrace(states, steps)
    ensures (forall k :: 0 <= k <= |steps| ==> LineageIs(states[k].store, Landed(states, steps, k))) <==>
            forall k :: 0 <= k < |steps| && LandsAt(states, steps, k) ==> ReplacesWhatItRead(states[k])
  {
    if forall k :: 0 <= k < |steps| && LandsAt(states, steps, k) ==> ReplacesWhatItRead(states[k]) {
      forall k | 0 <= k <= |steps|
        ensures LineageIs(states[k].store, Landed(states, steps, k))
      {
        CurrentLandings(states, steps, k);
      }
    }
    if forall k :: 0 <= k <= |steps| ==> LineageIs(states[k].store, Landed(states, steps, k)) {
      forall k | 0 <= k < |steps| && LandsAt(states, steps, k)
        ensures ReplacesWhatItRead(states[k])
      {
        assert LineageIs(states[k + 1].store, Landed(states, steps, k + 1));
        LandingLineage(states, steps, k);
      }
    }
  }

  lemma LandingLineage(states: seq<State>, steps: seq<Step>, k: nat)
    requires IsTrace(states, steps) && k < |steps| && LandsAt(states, steps, k)
    requires LineageIs(states[k].store, Landed(states, steps, k))
    requires LineageIs(states[k + 1].store, Landed(states, steps, k + 1))
    ensures ReplacesWhatItRead(states[k])
  {
    LineageNext(states[k], steps[k]);
    SameButLast(Rounds(states[k].phase.work.read), Rounds(states[k].store.value), states[k].phase.work.AsRound());
  }

  lemma SameButLast(a: seq<Round>, b: seq<Round>, last: Round)
    requires a + [last] == b + [last]
    ensures a == b
  {
    assert |a + [last]| == |b + [last]|;
    assert a == (a + [last])[..|a|] && b == (b + [last])[..|b|];
  }

  /** A reconcile that starts reads the status that is stored, and no class is deleted under it. */
  ghost predicate Fresh(s: State, step: Step) {
    && (step.Start? && s.cache.Some? ==> s.store.Some? && s.cache.value.status == s.store.value.status)
    && (step.Delete? ==> s.phase.Idle?)
  }

  /** The status is the history of these rounds, and a reconcile in flight started from it. */
  ghost predicate AddsUp(s: State, landed: seq<Round>) {
    && (s.store.Some? ==> s.store.value.status == Run(NO_STATUS, landed))
    && (!s.phase.Idle? ==> s.store.Some? && s.phase.work.read.status == s.store.value.status)
  }

  lemma FreshStepAddsUp(s: State, step: Step, landed: seq<Round>)
    requires Enabled(s, step) && Fresh(s, step) && AddsUp(s, landed)
    ensures AddsUp(Next(s, step), if step.Create? then []
                                  else if step.Update? && Lands(s) then landed + [s.phase.work.AsRound()] else landed)
  {
    if step.Update? && Lands(s) {
      assert (landed + [s.phase.work.AsRound()])[..|landed|] == landed;
    }
  }

  /** So while the cache has caught up with the last status write whenever a reconcile starts, the
      stored status is the history of everything that landed. */
  lemma {:induction false} FreshReadsAddUp(states: seq<State>, steps: seq<Step>, k: nat)
    requires IsTrace(states, steps) && k <= |steps|
    requires forall i :: 0 <= i < k ==> Fresh(states[i], steps[i])
    ensures AddsUp(states[k], Landed(states, steps, k))
    decreases k
  {
    if k > 0 {
      FreshReadsAddUp(states, steps, k - 1);
      FreshStepAddsUp(states[k - 1], steps[k - 1], Landed(states, steps, k - 1));
    }
  }

  // ---------- fields that go away ----------

  /** What a landing leaves of the discovered fields depends on what was read, not on what it
      replaces: they are gone exactly if the reconcile read none and created none; and if there were
      any, then only because the landing builds on another status than the one it replaces. */
  lemma LandingDropsFields(steps: seq<Step>)
    requires IsRun(INIT, steps) && Lands(After(INIT, steps))
    ensures var s := After(INIT, steps);
            var dropped := Next(s, Update).store.value.status.discovered == None;
            && (dropped <==> s.phase.work.read.status.discovered == None
                             && (s.phase.work.read.spec.policy != NONE || s.phase.work.Fails()))
            && (dropped && s.store.value.status.discovered.Some? ==> !ReplacesWhatItRead(s))
  {
    ReachableKeepsInv(steps);
    LandingFields(After(INIT, steps));
    SameLineageSameStatus(After(INIT, steps));
  }

  lemma LandingFields(s: State)
    requires Lands(s)
    ensures Next(s, Update).store.value.status.discovered == None <==>
            && s.phase.work.read.status.discovered == None
            && (s.phase.work.read.spec.policy != NONE || s.phase.work.Fails())
  {
  }

  lemma SameLineageSameStatus(s: State)
    requires HistoryOk(s) && Lands(s)
    ensures ReplacesWhatItRead(s) ==> s.phase.work.read.status == s.store.value.status
  {
    StoreIsKnown(s);
    SoundStatusIsRun(s.store.value);
    SoundStatusIsRun(s.phase.work.read);
  }

  /** A new class with its first reconcile in flight. */
  function Started(spec: Spec, first: Fetch, second: Fetch): seq<Step> {
    [Create(spec), Deliver, Start(first, second)]
  }

  /** Its spec is edited meanwhile; the cache shows the edit and not yet the status that lands. */
  function Overtaken(a: Spec, b: Spec, first: Fetch, second: Fetch): seq<Step> {
    Started(a, first, second) + [Edit(b), Deliver, Get, Update]
  }

  /** The next reconcile reads the edited object, finds nothing, and lands as well. */
  function Dropped(a: Spec, b: Spec, first: Fetch, second: Fetch): seq<Step> {
    Overtaken(a, b, first, second) + [Start(Unavailable, Unavailable), Deliver, Get, Update]
  }

  lemma StartedRun(spec: Spec, first: Fetch, second: Fetch)
    ensures IsRun(INIT, Started(spec, first, second))
    ensures var o := Object(1, 0, spec, NO_STATUS, 0, Created);
            After(INIT, Started(spec, first, second))
            == State(Some(o), 1, [], Some(o), false, Getting(Work(o, first, second), RETRY_STEPS), false)
  {
    OneMoreStep(INIT, [], Create(spec));
    var s1 := [] + [Create(spec)];
    OneMoreStep(INIT, s1, Deliver);
    var s2 := s1 + [Deliver];
    OneMoreStep(INIT, s2, Start(first, second));
    assert s2 + [Start(first, second)] == Started(spec, first, second);
  }

  ghost predicate IsOvertaken(s: State, b: Spec, r: Round) {
    && s.store.Some? && s.watch == [s.store] && s.queued && s.phase.Idle?
    && s.cache.Some? && s.cache.value.spec == b && s.cache.value.status == NO_STATUS
    && s.store.value.status == Persisted(StatusAfter(r, NO_STATUS))
  }

  lemma OvertakenRun(a: Spec, b: Spec, first: Fetch, second: Fetch)
    requires a != b && a.policy == NONE && !Round(a, first, second).Fails()
    ensures IsRun(INIT, Overtaken(a, b, first, second))
    ensures IsOvertaken(After(INIT, Overtaken(a, b, first, second)), b, Round(a, first, second))
  {
    StartedRun(a, first, second);
    var s3 := Started(a, first, second);
    OneMoreStep(INIT, s3, Edit(b));
    var s4 := s3 + [Edit(b)];
    OneMoreStep(INIT, s4, Deliver);
    var s5 := s4 + [Deliver];
    OneMoreStep(INIT, s5, Get);
    var s6 := s5 + [Get];
    OneMoreStep(INIT, s6, Update);
    assert s6 + [Update] == Overtaken(a, b, first, second);
  }

  lemma DroppedRun(a: Spec, b: Spec, first: Fetch, second: Fetch)
    requires IsRun(INIT, Overtaken(a, b, first, second))
    requires IsOvertaken(After(INIT, Overtaken(a, b, first, second)), b, Round(a, first, second))
    ensures IsRun(INIT, Dropped(a, b, first, second))
    ensures var o := After(INIT, Dropped(a, b, first, second)).store;
            o.Some? && o.value.status == Persisted(StatusAfter(Round(b, Unavailable, Unavailable), NO_STATUS))
  {
    var s7 := Overtaken(a, b, first, second);
    OneMoreStep(INIT, s7, Start(Unavailable, Unavailable));
    var s8 := s7 + [Start(Unavailable, Unavailable)];
    OneMoreStep(INIT, s8, Deliver);
    var s9 := s8 + [Deliver];
    OneMoreStep(INIT, s9, Get);
    var s10 := s9 + [Get];
    OneMoreStep(INIT, s10, Update);
    assert s10 + [Update] == Dropped(a, b, first, second);
  }

  /** It happens: a class becomes ready with discovered fields; its spec was edited meanwhile, and
      the next reconcile starts before the cache shows the status. When discovery fails then, fields
      and the ready condition are gone. */
  lemma StaleReadDropsFields(a: Spec, b: Spec, first: Fetch, second: Fetch)
    requires a != b && a.policy == NONE && b.policy == NONE
    requires !Round(a, first, second).Fails() && Round(b, Unavailable, Unavailable).Fails()
    ensures var before, after := Overtaken(a, b, first, second), Dropped(a, b, first, second);
            && IsRun(INIT, before) && After(INIT, before).store.Some?
            && IsRun(INIT, after) && After(INIT, after).store.Some?
            && var status, status' := After(INIT, before).store.value.status, After(INIT, after).store.value.status;
               && status.discovered.Some? && Conditions(status) == [ConditionFor(false, STATE_READY)]
               && status'.discovered == None && Conditions(status') == [ConditionFor(true, STATE_ERROR)]
  {
    OvertakenRun(a, b, first, second);
    DroppedRun(a, b, first, second);
  }

  // ---------- what a reconcile reads was stored ----------

  ghost predicate WasStored(states: seq<State>, k: nat, o: Object)
    requires k < |states|
  {
    exists j {:trigger states[j]} :: 0 <= j <= k && states[j].store == Some(o)
  }

  ghost predicate AllWereStored(states: seq<State>, k: nat)
    requires k < |states|
  {
    var s := states[k];
    && (forall i {:trigger History(s)[i]} :: 0 <= i < |History(s)| && History(s)[i].Some? ==>
          WasStored(states, k, History(s)[i].value))
    && (!s.phase.Idle? ==> WasStored(states, k, s.phase.work.read))
    && (s.store.Some? && s.store.value.origin.Written? ==> WasStored(states, k, s.store.value.origin.work.read))
  }

  lemma StillStored(states: seq<State>, k: nat, o: Object)
    requires k + 1 < |states| && WasStored(states, k, o)
    ensures WasStored(states, k + 1, o)
  {
  }

  /** Each entry of the next history is one of the last or what the store holds now. */
  lemma HistoryNext(s: State, step: Step, i: nat)
    requires Enabled(s, step) && i < |History(Next(s, step))|
    ensures var h, next := History(s), Next(s, step);
            History(next)[i] == next.store || (exists j :: 0 <= j < |h| && h[j] == History(next)[i])
  {
    var h, next := History(s), Next(s, step);
    if step.Deliver? {
      assert h[i + 1] == History(next)[i];
    } else if i < |h| {
      assert h[i] == History(next)[i];
    }
  }

  lemma ReadNext(s: State, step: Step)
    requires Enabled(s, step)
    ensures var next := Next(s, step);
            && (!next.phase.Idle? ==>
                  || Some(next.phase.work.read) == s.cache
                  || (!s.phase.Idle? && next.phase.work.read == s.phase.work.read))
            && (next.store.Some? && next.store.value.origin.Written? ==>
                  || (s.store.Some? && next.store.value.origin == s.store.value.origin)
                  || (!s.phase.Idle? && next.store.value.origin.work == s.phase.work))
  {
  }

  lemma {:induction false} ReadsWereStored(states: seq<State>, steps: seq<Step>, k: nat)
    requires IsTrace(states, steps) && k <= |steps|
    ensures AllWereStored(states, k)
    decreases k
  {
    if k > 0 {
      ReadsWereStored(states, steps, k - 1);
      var s, step, next := states[k - 1], steps[k - 1], states[k];
      forall o | WasStored(states, k - 1, o)
        ensures WasStored(states, k, o)
      {
        StillStored(states, k - 1, o);
      }
      forall i {:trigger History(next)[i]} | 0 <= i < |History(next)| && History(next)[i].Some?
        ensures WasStored(states, k, History(next)[i].value)
      {
        HistoryNext(s, step, i);
      }
      ReadNext(s, step);
      assert History(s)[0] == s.cache;
    }
  }

  /** The present status is what a successful reconcile of this object computes. */
  ghost predicate ComputedFrom(o: Object, read: Object) {
    exists first, second ::
      && !Round(read.spec, first, second).Fails()
      && o.status == Persisted(StatusAfter(Round(read.spec, first, second), read.status))
  }

  lemma {:induction false} TraceKeepsInv(states: seq<State>, steps: seq<Step>, k: nat)
    requires IsTrace(states, steps) && k <= |steps|
    ensures Inv(states[k])
  {
    if k == 0 {
      assert History(INIT) == [None];
    } else {
      TraceKeepsInv(states, steps, k - 1);
      StepKeepsInv(states[k - 1], steps[k - 1]);
    }
  }

  /** So a class that was not given up is settled by the reconcile of an object that the store held
      at some moment of the run, with the present spec and generation. */
  lemma SettledStatusHasASource(states: seq<State>, steps: seq<Step>)
    requires IsTrace(states, steps)
    requires Quiescent(states[|steps|]) && states[|steps|].store.Some? && !states[|steps|].abandoned
    ensures var o := states[|steps|].store.value;
            exists k {:trigger states[k]} ::
              && 0 <= k <= |steps| && states[k].store.Some?
              && states[k].store.value.spec == o.spec && states[k].store.value.generation == o.generation
              && ComputedFrom(o, states[k].store.value)
  {
    var s := states[|steps|];
    assert History(s) == [s.cache];
    TraceKeepsInv(states, steps, |steps|);
    ReadsWereStored(states, steps, |steps|);
    var work := s.store.value.origin.work;
    var k :| 0 <= k <= |steps| && states[k].store == Some(work.read);
    assert !Round(work.read.spec, work.first, work.second).Fails();
  }
}
