/** One DNSClass between its editors, the API server, the informer cache, the work queue and the
    reconciler, as a state machine; and why its status converges to its spec. */
module StatusConvergence {
  import opened GoStrings
  import opened DnsClass
  import opened DnsClassController
  import opened StatusHistory

  /** A stored object: its generation counts the changes of its spec, its version all changes of
      anything. No step looks at the last two fields; they tell its history: the version that made
      its present generation, and how it came by its status. */
  datatype Object = Object(generation: nat, version: nat, spec: Spec, status: Status, since: nat, origin: Origin)

  datatype Origin = Created | Written(work: Work)

  /** A reconcile: the cached object it read and what its two fetches brought. */
  datatype Work = Work(read: Object, first: Fetch, second: Fetch)
  {
    function AsRound(): Round {
      Round(read.spec, first, second)
    }

    function Status(): Status {
      StatusAfter(AsRound(), read.status)
    }

    predicate Fails() {
      AsRound().Fails()
    }
  }

  /** The attempts of retry.DefaultRetry. */
  const RETRY_STEPS: nat := 5

  /** The reconcile in flight for the key, if any: its status is computed and waits for the Get of
      the retry loop, or for the Update that sends it with the object that Get returned. */
  datatype Phase =
    | Idle
    | Getting(work: Work, left: nat)
    | Updating(work: Work, left: nat, got: Object)

  /** `watch` holds the changes the cache has not seen yet; None stands for a deletion. `abandoned`
      says that the last reconcile did not get its status written. */
  datatype State = State(store: Option<Object>, versions: nat, watch: seq<Option<Object>>, cache: Option<Object>,
                         queued: bool, phase: Phase, abandoned: bool)

  datatype Step =
    | Create(spec: Spec)
    | Edit(spec: Spec)
    | Delete
    | Deliver
    | Start(first: Fetch, second: Fetch)
    | Get
    | Update
    | GiveUp

  /** Steps of the editors; all others are the controller's. GiveUp is any error of the status
      write other than a conflict. */
  predicate ByEditor(step: Step) {
    step.Create? || step.Edit? || step.Delete?
  }

  const INIT := State(None, 0, [], None, false, Idle, false)

  /** The event filter: creations, and updates that change the generation. */
  predicate Enqueues(before: Option<Object>, after: Option<Object>) {
    match (before, after)
    case (None, Some(_)) => true
    case (Some(o), Some(n)) => o.generation != n.generation
    case (_, None) => false
  }

  predicate Enabled(s: State, step: Step) {
    match step
    case Create(_) => s.store == None
    case Edit(_) => s.store.Some?
    case Delete => s.store.Some?
    case Deliver => s.watch != []
    case Start(_, _) => s.queued && s.phase.Idle?
    case Get => s.phase.Getting?
    case Update => s.phase.Updating?
    case GiveUp => !s.phase.Idle?
  }

  function Put(s: State, o: Option<Object>): State {
    s.(store := o, versions := s.versions + 1, watch := s.watch + [o])
  }

  /** A reconcile that returned an error is queued again. */
  function Finish(s: State): State {
    s.(phase := Idle, queued := s.queued || (!s.phase.Idle? && s.phase.work.Fails()))
  }

  function NewObject(s: State, spec: Spec): Object {
    Object(1, s.versions, spec, NO_STATUS, s.versions, Created)
  }

  function Edited(s: State, o: Object, spec: Spec): Object {
    if spec == o.spec then o.(version := s.versions)
    else o.(generation := o.generation + 1, version := s.versions, spec := spec, since := s.versions)
  }

  /** The Update that is taken. */
  predicate Lands(s: State) {
    s.phase.Updating? && s.store.Some? && s.store.value.version == s.phase.got.version
  }

  function WithStatus(s: State): Object
    requires Lands(s)
  {
    s.store.value.(version := s.versions, status := Persisted(s.phase.work.Status()), origin := Written(s.phase.work))
  }

  function Next(s: State, step: Step): State
    requires Enabled(s, step)
  {
    match step
    case Create(spec) => Put(s, Some(NewObject(s, spec)))
    case Edit(spec) => Put(s, Some(Edited(s, s.store.value, spec)))
    case Delete => Put(s, None)
    case Deliver =>
      s.(watch := s.watch[1..], cache := s.watch[0], queued := s.queued || Enqueues(s.cache, s.watch[0]))
    case Start(first, second) =>
      if s.cache == None then s.(queued := false, abandoned := false)
      else s.(queued := false, abandoned := false, phase := Getting(Work(s.cache.value, first, second), RETRY_STEPS))
    case Get =>
      if s.cache == None then Finish(s)
      else s.(phase := Updating(s.phase.work, s.phase.left, s.cache.value))
    case Update =>
      if Lands(s) then Finish(Put(s, Some(WithStatus(s))))
      else if s.store == None then Finish(s)
      else if s.phase.left <= 1 then Finish(s).(abandoned := true)
      else s.(phase := Getting(s.phase.work, s.phase.left - 1))
    case GiveUp => Finish(s).(abandoned := true)
  }

  // ---------- the order of stored objects ----------

  /** An object of the same time or before: an equal `since` means the same generation of the same
      class, not of one that was created again under its name. */
  ghost predicate Upto(r: Object, o: Object) {
    && r.version <= o.version
    && r.since <= o.since
    && (r.since == o.since ==> r.spec == o.spec && r.generation == o.generation)
  }

  /** Exactly the changes that are queued begin a generation. */
  ghost predicate Follows(before: Option<Object>, after: Option<Object>) {
    after.Some? ==>
      if Enqueues(before, after) then after.value.since == after.value.version
      else before.Some? && before.value.since == after.value.since
  }

  /** The cached object and what follows it. */
  ghost function History(s: State): seq<Option<Object>> {
    [s.cache] + s.watch
  }

  ghost predicate WorkAhead(h: seq<Option<Object>>) {
    exists i {:trigger h[i]} :: 0 <= i < |h| - 1 && Enqueues(h[i], h[i + 1])
  }

  ghost predicate Linked(h: seq<Option<Object>>) {
    forall i {:trigger h[i]} :: 0 <= i < |h| - 1 ==> Follows(h[i], h[i + 1])
  }

  ghost predicate Earlier(a: Option<Object>, b: Option<Object>) {
    a.Some? && b.Some? ==> Upto(a.value, b.value) && a.value.version < b.value.version
  }

  ghost predicate Rising(h: seq<Option<Object>>) {
    forall i, j {:trigger Earlier(h[i], h[j])} :: 0 <= i < j < |h| ==> Earlier(h[i], h[j])
  }

  lemma {:induction false} NoWorkAheadMeansCurrent(h: seq<Option<Object>>)
    requires h != [] && Linked(h) && !WorkAhead(h) && h[|h| - 1].Some?
    ensures h[0].Some? && h[0].value.since == h[|h| - 1].value.since
  {
    if |h| > 1 {
      DropLink(h);
      NoWorkAheadMeansCurrent(h[1..]);
    }
  }

  lemma AppendLink(h: seq<Option<Object>>, o: Option<Object>)
    requires h != [] && Linked(h) && Follows(h[|h| - 1], o)
    ensures Linked(h + [o])
  {
    var more := h + [o];
    forall i {:trigger more[i]} | 0 <= i < |more| - 1
      ensures Follows(more[i], more[i + 1])
    {
      assert more[i] == h[i] && more[i + 1] == if i < |h| - 1 then h[i + 1] else o;
    }
  }

  lemma AppendWork(h: seq<Option<Object>>, o: Option<Object>)
    requires h != []
    ensures WorkAhead(h + [o]) <==> WorkAhead(h) || Enqueues(h[|h| - 1], o)
  {
    var more, last := h + [o], |h| - 1;
    forall i | 0 <= i < |more| - 1
      ensures Enqueues(more[i], more[i + 1]) <==> if i < last then Enqueues(h[i], h[i + 1]) else Enqueues(h[last], o)
    {
      assert more[i] == h[i] && more[i + 1] == if i < last then h[i + 1] else o;
    }
    if i :| 0 <= i < last && Enqueues(h[i], h[i + 1]) {
      assert Enqueues(more[i], more[i + 1]);
    }
    if Enqueues(h[last], o) {
      assert Enqueues(more[last], more[last + 1]);
    }
  }

  lemma DropLink(h: seq<Option<Object>>)
    requires |h| > 1 && Linked(h)
    ensures Linked(h[1..]) && Follows(h[0], h[1])
    ensures WorkAhead(h) <==> Enqueues(h[0], h[1]) || WorkAhead(h[1..])
  {
    var rest := h[1..];
    forall i | 0 <= i < |rest| - 1
      ensures Follows(rest[i], rest[i + 1])
    {
      assert rest[i] == h[i + 1];
    }
    if i :| 0 <= i < |h| - 1 && Enqueues(h[i], h[i + 1]) {
      assert i > 0 ==> rest[i - 1] == h[i] && rest[i] == h[i + 1];
    }
    if i :| 0 <= i < |rest| - 1 && Enqueues(rest[i], rest[i + 1]) {
      assert rest[i] == h[i + 1] && rest[i + 1] == h[i + 2];
    }
    assert Follows(h[0], h[0 + 1]);
  }

  lemma AppendRising(h: seq<Option<Object>>, o: Option<Object>)
    requires Rising(h) && forall i {:trigger h[i]} :: 0 <= i < |h| ==> Earlier(h[i], o)
    ensures Rising(h + [o])
  {
    var more := h + [o];
    forall i, j | 0 <= i < j < |more|
      ensures Earlier(more[i], more[j])
    {
      assert more[i] == h[i] && Earlier(h[i], o);
      assert j < |h| ==> more[j] == h[j] && Earlier(h[i], h[j]);
    }
  }

  lemma DropRising(h: seq<Option<Object>>)
    requires Rising(h) && h != []
    ensures Rising(h[1..])
  {
    var rest := h[1..];
    forall i, j | 0 <= i < j < |rest|
      ensures Earlier(rest[i], rest[j])
    {
      assert Earlier(h[i + 1], h[j + 1]);
    }
  }

  // ---------- the invariant ----------

  /** The status is what the reconciles in its history make of a new object's, and each of them read
      the object as it was before. */
  ghost predicate Sound(o: Object) {
    match o.origin
    case Created => o.status == NO_STATUS
    case Written(work) => o.status == Persisted(work.Status()) && Upto(work.read, o) && Sound(work.read)
  }

  ghost predicate Known(o: Object, versions: nat) {
    o.since <= o.version < versions && Sound(o)
  }

  ghost predicate AllKnown(h: seq<Option<Object>>, versions: nat) {
    forall i {:trigger h[i]} :: 0 <= i < |h| && h[i].Some? ==> Known(h[i].value, versions)
  }

  /** An object that is or was in the cache. */
  ghost predicate Seen(r: Object, versions: nat, h: seq<Option<Object>>)
    requires h != []
  {
    && Known(r, versions)
    && (h[0].Some? ==> Upto(r, h[0].value))
    && forall i {:trigger h[i]} :: 0 < i < |h| ==> Earlier(Some(r), h[i])
  }

  ghost predicate AllSeen(s: State) {
    && (!s.phase.Idle? ==> Seen(s.phase.work.read, s.versions, History(s)))
    && (s.store.Some? && s.store.value.origin.Written? ==> Seen(s.store.value.origin.work.read, s.versions, History(s)))
  }

  ghost predicate HistoryOk(s: State) {
    var h := History(s);
    h[|h| - 1] == s.store && Linked(h) && Rising(h) && AllKnown(h, s.versions) && AllSeen(s)
  }

  /** The status was computed by a reconcile that succeeded and read the present generation. */
  ghost predicate Settled(o: Object) {
    && o.origin.Written? && !o.origin.work.Fails()
    && o.origin.work.read.since == o.since
    && o.origin.work.read.generation == o.generation && o.origin.work.read.spec == o.spec
    && o.status == Persisted(o.origin.work.Status())
  }

  /** What is not current is being worked on. */
  ghost predicate PendingOk(s: State) {
    && (!s.phase.Idle? ==> !s.abandoned)
    && (s.store.Some? && !s.queued && !WorkAhead(History(s)) && !s.abandoned ==>
          if s.phase.Idle? then Settled(s.store.value) else s.phase.work.read.since == s.store.value.since)
  }

  ghost predicate WellBefore(o: Option<Object>, since: nat) {
    o.Some? && o.value.origin.Written? && !o.value.origin.work.Fails() ==> o.value.origin.work.read.since < since
  }

  /** No generation is worked on again once it is settled. */
  ghost predicate OnceOk(s: State) {
    && (!s.phase.Idle? ==> WellBefore(s.store, s.phase.work.read.since))
    && (s.queued && s.cache.Some? ==> WellBefore(s.store, s.cache.value.since))
    && (s.phase.Idle? && s.abandoned && s.store.Some? ==> WellBefore(s.store, s.store.value.since))
    && (s.queued && s.cache.Some? && !s.phase.Idle? && !s.phase.work.Fails() ==>
          s.phase.work.read.since < s.cache.value.since)
  }

  ghost predicate Inv(s: State) {
    HistoryOk(s) && PendingOk(s) && OnceOk(s)
  }

  /** An object that the store may take next. */
  ghost predicate CanFollow(s: State, o: Option<Object>) {
    && Follows(s.store, o)
    && (o.Some? ==>
         && Known(o.value, s.versions + 1) && o.value.version == s.versions
         && (!Enqueues(s.store, o) ==> o.value.generation == s.store.value.generation && o.value.spec == s.store.value.spec)
         && (o.value.origin.Written? ==> Seen(o.value.origin.work.read, s.versions, History(s))))
  }

  /** What every change of the store keeps. */
  lemma PutKeepsHistory(s: State, o: Option<Object>)
    requires HistoryOk(s) && CanFollow(s, o)
    ensures HistoryOk(Put(s, o))
    ensures WorkAhead(History(Put(s, o))) <==> WorkAhead(History(s)) || Enqueues(s.store, o)
  {
    var h := History(s);
    assert History(Put(s, o)) == h + [o];
    AppendLink(h, o);
    AppendWork(h, o);
    forall i {:trigger h[i]} | 0 <= i < |h|
      ensures Earlier(h[i], o)
    {
      EarlierThanNew(s, i, o);
    }
    AppendRising(h, o);
    AppendKnown(h, o, s.versions);
    if !s.phase.Idle? {
      SeenAfterPut(s, s.phase.work.read, o);
    }
    if o.Some? && o.value.origin.Written? {
      SeenAfterPut(s, o.value.origin.work.read, o);
    }
  }

  lemma AppendKnown(h: seq<Option<Object>>, o: Option<Object>, versions: nat)
    requires AllKnown(h, versions) && (o.Some? ==> Known(o.value, versions + 1))
    ensures AllKnown(h + [o], versions + 1)
  {
  }

  lemma {:induction false} EarlierThanNew(s: State, i: nat, o: Option<Object>)
    requires HistoryOk(s) && CanFollow(s, o) && i < |History(s)|
    ensures Earlier(History(s)[i], o)
  {
    var h := History(s);
    if h[i].Some? && o.Some? {
      assert Known(h[i].value, s.versions);
      if !Enqueues(s.store, o) {
        UptoLast(h, i);
      }
    }
  }

  lemma UptoLast(h: seq<Option<Object>>, i: nat)
    requires Rising(h) && i < |h| && h[i].Some? && h[|h| - 1].Some?
    ensures Upto(h[i].value, h[|h| - 1].value)
  {
    assert i < |h| - 1 ==> Earlier(h[i], h[|h| - 1]);
  }

  lemma SeenAfterPut(s: State, r: Object, o: Option<Object>)
    requires HistoryOk(s) && CanFollow(s, o) && Seen(r, s.versions, History(s))
    ensures Seen(r, s.versions + 1, History(s) + [o])
  {
    var h := History(s);
    SeenIsUptoStore(s, r);
    assert Earlier(Some(r), o);
    forall i {:trigger (h + [o])[i]} | 0 < i < |h + [o]|
      ensures Earlier(Some(r), (h + [o])[i])
    {
      assert i < |h| ==> (h + [o])[i] == h[i];
    }
  }

  lemma SeenIsUptoStore(s: State, r: Object)
    requires HistoryOk(s) && Seen(r, s.versions, History(s))
    ensures s.store.Some? ==> Upto(r, s.store.value)
    ensures s.cache.Some? ==> Upto(r, s.cache.value)
    ensures s.watch != [] ==> Earlier(Some(r), s.watch[0])
  {
    var h := History(s);
    assert h[0] == s.cache;
    assert s.watch != [] ==> h[1] == s.watch[0];
    assert |h| > 1 ==> Earlier(Some(r), h[|h| - 1]);
  }

  lemma EditKeepsInv(s: State, spec: Spec)
    requires Inv(s) && s.store.Some?
    ensures Inv(Next(s, Edit(spec)))
  {
    StoreIsKnown(s);
    PutKeepsHistory(s, Some(Edited(s, s.store.value, spec)));
  }

  lemma StoreIsKnown(s: State)
    requires HistoryOk(s) && s.store.Some?
    ensures Known(s.store.value, s.versions)
  {
    assert History(s)[|s.watch|] == s.store;
  }

  lemma CreateKeepsInv(s: State, spec: Spec)
    requires Inv(s) && s.store == None
    ensures Inv(Next(s, Create(spec)))
  {
    PutKeepsHistory(s, Some(NewObject(s, spec)));
  }

  lemma DeleteKeepsInv(s: State)
    requires Inv(s) && s.store.Some?
    ensures Inv(Next(s, Delete))
  {
    PutKeepsHistory(s, None);
  }

  lemma SeenAfterDeliver(s: State, r: Object)
    requires s.watch != [] && Seen(r, s.versions, History(s))
    ensures Seen(r, s.versions, History(s)[1..])
  {
    var h := History(s);
    assert h[1..][0] == h[1] && Earlier(Some(r), h[1]);
    forall i {:trigger h[1..][i]} | 0 < i < |h[1..]|
      ensures Earlier(Some(r), h[1..][i])
    {
      assert h[1..][i] == h[i + 1];
    }
  }

  lemma DeliverKeepsHistory(s: State)
    requires HistoryOk(s) && s.watch != []
    ensures HistoryOk(Next(s, Deliver))
    ensures WorkAhead(History(s)) <==> Enqueues(s.cache, s.watch[0]) || WorkAhead(History(Next(s, Deliver)))
    ensures Follows(s.cache, s.watch[0]) && Earlier(s.cache, s.watch[0])
  {
    var h := History(s);
    assert History(Next(s, Deliver)) == h[1..];
    DropLink(h);
    assert Earlier(h[0], h[1]);
    DropRising(h);
    if !s.phase.Idle? {
      SeenAfterDeliver(s, s.phase.work.read);
    }
    if s.store.Some? && s.store.value.origin.Written? {
      SeenAfterDeliver(s, s.store.value.origin.work.read);
    }
  }

  lemma DeliverKeepsInv(s: State)
    requires Inv(s) && s.watch != []
    ensures Inv(Next(s, Deliver))
  {
    DeliverKeepsHistory(s);
    if !s.phase.Idle? {
      SeenIsUptoStore(s, s.phase.work.read);
    }
    if s.store.Some? && s.store.value.origin.Written? {
      SeenIsUptoStore(s, s.store.value.origin.work.read);
    }
  }

  lemma CacheIsSeen(s: State)
    requires HistoryOk(s) && s.cache.Some?
    ensures Seen(s.cache.value, s.versions, History(s))
  {
    var h := History(s);
    forall i {:trigger h[i]} | 0 < i < |h|
      ensures Earlier(h[0], h[i])
    {
    }
    assert Known(h[0].value, s.versions);
  }

  lemma StartKeepsInv(s: State, first: Fetch, second: Fetch)
    requires Inv(s) && Enabled(s, Start(first, second))
    ensures Inv(Next(s, Start(first, second)))
  {
    assert History(Next(s, Start(first, second))) == History(s);
    if s.cache.Some? {
      CacheIsSeen(s);
    }
    if s.store.Some? && !WorkAhead(History(s)) {
      NoWorkAheadMeansCurrent(History(s));
    }
  }

  lemma GetKeepsInv(s: State)
    requires Inv(s) && s.phase.Getting?
    ensures Inv(Next(s, Get))
  {
    assert History(Next(s, Get)) == History(s);
    SeenIsUptoStore(s, s.phase.work.read);
    if s.store.Some? && !WorkAhead(History(s)) {
      NoWorkAheadMeansCurrent(History(s));
    }
  }

  lemma LandingKeepsInv(s: State)
    requires Inv(s) && Lands(s)
    ensures Inv(Next(s, Update))
  {
    LandingKeepsHistory(s);
    SeenIsUptoStore(s, s.phase.work.read);
  }

  lemma LandingKeepsHistory(s: State)
    requires HistoryOk(s) && Lands(s)
    ensures HistoryOk(Next(s, Update))
    ensures WorkAhead(History(Next(s, Update))) <==> WorkAhead(History(s))
  {
    StoreIsKnown(s);
    SeenIsUptoStore(s, s.phase.work.read);
    PutKeepsHistory(s, Some(WithStatus(s)));
    assert History(Next(s, Update)) == History(Put(s, Some(WithStatus(s))));
  }

  lemma RefusalKeepsInv(s: State)
    requires Inv(s) && s.phase.Updating? && !Lands(s)
    ensures Inv(Next(s, Update))
  {
    assert History(Next(s, Update)) == History(s);
    SeenIsUptoStore(s, s.phase.work.read);
  }

  lemma GiveUpKeepsInv(s: State)
    requires Inv(s) && !s.phase.Idle?
    ensures Inv(Next(s, GiveUp))
  {
    assert History(Next(s, GiveUp)) == History(s);
    SeenIsUptoStore(s, s.phase.work.read);
  }

  lemma StepKeepsInv(s: State, step: Step)
    requires Inv(s) && Enabled(s, step)
    ensures Inv(Next(s, step))
  {
    match step
    case Create(spec) => CreateKeepsInv(s, spec);
    case Edit(spec) => EditKeepsInv(s, spec);
    case Delete => DeleteKeepsInv(s);
    case Deliver => DeliverKeepsInv(s);
    case Start(first, second) => StartKeepsInv(s, first, second);
    case Get => GetKeepsInv(s);
    case Update => if Lands(s) { LandingKeepsInv(s); } else { RefusalKeepsInv(s); }
    case GiveUp => GiveUpKeepsInv(s);
  }

  // ---------- every interleaving ----------

  ghost predicate IsRun(s: State, steps: seq<Step>)
    decreases |steps|
  {
    steps == [] || (Enabled(s, steps[0]) && IsRun(Next(s, steps[0]), steps[1..]))
  }

  ghost function After(s: State, steps: seq<Step>): State
    requires IsRun(s, steps)
    decreases |steps|
  {
    if steps == [] then s else After(Next(s, steps[0]), steps[1..])
  }

  lemma {:induction false} RunKeepsInv(s: State, steps: seq<Step>)
    requires Inv(s) && IsRun(s, steps)
    ensures Inv(After(s, steps))
    decreases |steps|
  {
    if steps != [] {
      StepKeepsInv(s, steps[0]);
      RunKeepsInv(Next(s, steps[0]), steps[1..]);
    }
  }

  lemma {:induction false} RunInTwoParts(s: State, before: seq<Step>, steps: seq<Step>)
    requires IsRun(s, before)
    ensures IsRun(s, before + steps) <==> IsRun(After(s, before), steps)
    ensures IsRun(s, before + steps) ==> After(s, before + steps) == After(After(s, before), steps)
    decreases |before|
  {
    if before == [] {
      assert before + steps == steps;
    } else {
      RunInTwoParts(Next(s, before[0]), before[1..], steps);
      assert (before + steps)[1..] == before[1..] + steps;
    }
  }

  lemma OneMoreStep(s: State, steps: seq<Step>, step: Step)
    requires IsRun(s, steps) && Enabled(After(s, steps), step)
    ensures IsRun(s, steps + [step]) && After(s, steps + [step]) == Next(After(s, steps), step)
  {
    var now := After(s, steps);
    assert IsRun(now, [step]) && After(now, [step]) == Next(now, step) by {
      assert IsRun(Next(now, step), []);
    }
    RunInTwoParts(s, steps, [step]);
  }

  lemma ReachableKeepsInv(steps: seq<Step>)
    requires IsRun(INIT, steps)
    ensures Inv(After(INIT, steps))
  {
    assert History(INIT) == [None];
    RunKeepsInv(INIT, steps);
  }

  /** No work is pending: nothing undelivered, queued or in flight. */
  predicate Quiescent(s: State) {
    s.watch == [] && !s.queued && s.phase.Idle?
  }

  /** No status was written for the present generation by a reconcile that succeeded: none at all,
      or one that failed, or one for a generation before. */
  ghost predicate Outdated(o: Object) {
    o.origin.Created? || o.origin.work.Fails() || o.origin.work.read.since < o.since
  }

  /** Whatever the order of edits, deliveries, reconciles and conflicting writes: when no work is
      pending, a live class has the status that a successful reconcile of its present generation
      computed, exactly unless the last reconcile gave up writing; then the status is an older one. */
  lemma QuiescentMeansSettled(steps: seq<Step>)
    requires IsRun(INIT, steps)
    ensures var s := After(INIT, steps);
            Quiescent(s) && s.store.Some? ==>
              && s.cache == s.store
              && (Settled(s.store.value) <==> !s.abandoned)
              && (Outdated(s.store.value) <==> s.abandoned)
              && (!s.abandoned ==> s.store.value.status.state == STATE_READY)
  {
    ReachableKeepsInv(steps);
    var s := After(INIT, steps);
    if Quiescent(s) && s.store.Some? {
      assert History(s) == [s.cache];
    }
  }

  /** The exception is real: the error of a status write is only logged, so nothing tries again. */
  lemma AbandonedWriteIsNotRetried(spec: Spec, first: Fetch, second: Fetch)
    requires !Round(spec, first, second).Fails()
    ensures var steps := [Create(spec), Deliver, Start(first, second), GiveUp];
            && IsRun(INIT, steps)
            && Quiescent(After(INIT, steps))
            && After(INIT, steps).store.Some? && After(INIT, steps).store.value.status == NO_STATUS
  {
    var s0 := [];
    OneMoreStep(INIT, s0, Create(spec));
    var s1 := s0 + [Create(spec)];
    OneMoreStep(INIT, s1, Deliver);
    var s2 := s1 + [Deliver];
    OneMoreStep(INIT, s2, Start(first, second));
    var s3 := s2 + [Start(first, second)];
    OneMoreStep(INIT, s3, GiveUp);
    assert s3 + [GiveUp] == [Create(spec), Deliver, Start(first, second), GiveUp];
  }

  /** A status write never loses a spec edit and never makes work of its own. */
  lemma StatusWritesAreQuiet(s: State)
    requires Inv(s) && s.phase.Updating? && s.store.Some?
    ensures var next := Next(s, Update);
            && next.store.Some?
            && next.store.value.spec == s.store.value.spec
            && next.store.value.generation == s.store.value.generation
            && (WorkAhead(History(next)) <==> WorkAhead(History(s)))
            && (next.queued ==> s.queued || s.phase.work.Fails())
            && (s.store.value.version != s.phase.got.version ==> next.store == s.store)
  {
    if Lands(s) {
      LandingKeepsHistory(s);
    } else {
      assert History(Next(s, Update)) == History(s);
    }
  }

  /** Work that is pending can always go on without the editors. */
  lemma PendingWorkCanGoOn(s: State)
    requires !Quiescent(s)
    ensures exists step :: Enabled(s, step) && !ByEditor(step) && !Fails(s, step)
  {
    if s.watch != [] {
      assert Enabled(s, Deliver);
    } else if s.phase.Getting? {
      assert Enabled(s, Get);
    } else if s.phase.Updating? {
      assert Enabled(s, Update);
    } else {
      var found := Config(map[CLUSTER_DOMAIN := JString(""), CLUSTER_DNS := JArray([])]);
      assert Enabled(s, Start(found, found)) && !Fails(s, Start(found, found));
    }
  }

  // ---------- convergence ----------

  /** A reconcile that returns an error. */
  predicate Fails(s: State, step: Step) {
    step.Start? && s.cache.Some? && Round(s.cache.value.spec, step.first, step.second).Fails()
  }

  function PairWeight(before: Option<Object>, after: Option<Object>): nat {
    if Enqueues(before, after) then 100 else 1
  }

  function HistoryWeight(h: seq<Option<Object>>): nat {
    if |h| <= 1 then 0 else PairWeight(h[0], h[1]) + HistoryWeight(h[1..])
  }

  function PhaseWeight(p: Phase): nat {
    match p
    case Idle => 0
    case Getting(work, left) => (if work.Fails() then 40 else 10) + 2 * left
    case Updating(work, left, _) => (if work.Fails() then 40 else 10) + 2 * left - 1
  }

  /** An upper bound on the work that is left. */
  function Weight(s: State): nat {
    HistoryWeight([s.cache] + s.watch) + (if s.queued then 30 else 0) + PhaseWeight(s.phase)
  }

  lemma {:induction false} AppendWeight(h: seq<Option<Object>>, o: Option<Object>)
    requires h != []
    ensures HistoryWeight(h + [o]) == HistoryWeight(h) + PairWeight(h[|h| - 1], o)
  {
    if |h| > 1 {
      assert (h + [o])[1..] == h[1..] + [o];
      AppendWeight(h[1..], o);
    } else {
      assert (h + [o])[1..] == [o];
    }
  }

  lemma DeliverWeighsLess(s: State)
    requires s.watch != []
    ensures Weight(Next(s, Deliver)) < Weight(s)
  {
    var h, rest := [s.cache] + s.watch, [s.watch[0]] + s.watch[1..];
    assert h[1..] == rest && h[1] == s.watch[0];
  }

  lemma PutWeight(s: State, o: Option<Object>)
    requires History(s)[|History(s)| - 1] == s.store
    ensures Weight(Put(s, o)) == Weight(s) + PairWeight(s.store, o)
  {
    AppendWeight(History(s), o);
    assert [s.cache] + (s.watch + [o]) == History(s) + [o];
  }

  lemma UpdateWeighsLess(s: State)
    requires s.phase.Updating? && History(s)[|History(s)| - 1] == s.store
    ensures Weight(Next(s, Update)) < Weight(s)
  {
    if Lands(s) {
      PutWeight(s, Some(WithStatus(s)));
    }
  }

  lemma StartWeighsLess(s: State, first: Fetch, second: Fetch)
    requires Enabled(s, Start(first, second)) && !Fails(s, Start(first, second))
    ensures Weight(Next(s, Start(first, second))) < Weight(s)
  {
    assert History(Next(s, Start(first, second))) == History(s);
  }

  lemma RestWeighsLess(s: State, step: Step)
    requires Enabled(s, step) && (step.Get? || step.GiveUp?)
    ensures Weight(Next(s, step)) < Weight(s)
  {
    assert History(Next(s, step)) == History(s);
  }

  lemma ControllerStepWeighsLess(s: State, step: Step)
    requires Inv(s) && Enabled(s, step) && !ByEditor(step) && !Fails(s, step)
    ensures Weight(Next(s, step)) < Weight(s)
  {
    match step
    case Deliver => DeliverWeighsLess(s);
    case Start(first, second) => StartWeighsLess(s, first, second);
    case Update => UpdateWeighsLess(s);
    case _ => RestWeighsLess(s, step);
  }

  ghost predicate ControllerRun(s: State, steps: seq<Step>)
    decreases |steps|
  {
    steps == [] ||
    (Enabled(s, steps[0]) && !ByEditor(steps[0]) && !Fails(s, steps[0]) && ControllerRun(Next(s, steps[0]), steps[1..]))
  }

  /** When the editors pause and discovery finds what the templates need, no schedule goes on for
      ever... */
  lemma {:induction false} ControllerRunsAreBounded(s: State, steps: seq<Step>)
    requires Inv(s) && ControllerRun(s, steps)
    ensures |steps| <= Weight(s)
    decreases |steps|
  {
    if steps != [] {
      ControllerStepWeighsLess(s, steps[0]);
      StepKeepsInv(s, steps[0]);
      ControllerRunsAreBounded(Next(s, steps[0]), steps[1..]);
    }
  }

  /** ...and one that cannot go on has left no work: the status is that of a successful reconcile
      of the present generation, exactly unless the last write was given up. */
  lemma Convergence(before: seq<Step>, steps: seq<Step>)
    requires IsRun(INIT, before) && ControllerRun(After(INIT, before), steps)
    ensures |steps| <= Weight(After(INIT, before))
    ensures IsRun(INIT, before + steps)
    ensures var s := After(INIT, before + steps);
            && (Quiescent(s) <==> forall step :: Enabled(s, step) && !Fails(s, step) ==> ByEditor(step))
            && (Quiescent(s) && s.store.Some? ==> (Settled(s.store.value) <==> !s.abandoned))
            && (Quiescent(s) && s.store.Some? && !s.abandoned ==> s.store.value.status.state == STATE_READY)
  {
    ReachableKeepsInv(before);
    ControllerRunsAreBounded(After(INIT, before), steps);
    ControllerRunIsRun(After(INIT, before), steps);
    RunInTwoParts(INIT, before, steps);
    QuiescentMeansSettled(before + steps);
    if !Quiescent(After(INIT, before + steps)) {
      PendingWorkCanGoOn(After(INIT, before + steps));
    }
  }

  lemma {:induction false} ControllerRunIsRun(s: State, steps: seq<Step>)
    requires ControllerRun(s, steps)
    ensures IsRun(s, steps)
    decreases |steps|
  {
    if steps != [] {
      ControllerRunIsRun(Next(s, steps[0]), steps[1..]);
    }
  }
}
