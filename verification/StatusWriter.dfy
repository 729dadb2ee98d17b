/** The retry loop that writes a status: it reads from a cache that may be behind, and writes to a
    store that others change. */
module StatusWriter {
  import opened GoStrings
  import opened DnsClass
  import opened StatusHistory
  import opened StatusConvergence

  /** What others do to the object between the Get and the Update of one attempt. */
  datatype Interference = Nothing | Edited(spec: Spec) | Deleted

  /** What is left of an object that the status writer must not touch. */
  datatype Desired = Desired(generation: nat, spec: Spec)

  function DesiredOf(o: Option<Object>): Option<Desired> {
    if o.Some? then Some(Desired(o.value.generation, o.value.spec)) else None
  }

  function Interfere(d: Option<Desired>, i: Interference): Option<Desired> {
    match i
    case Nothing => d
    case Deleted => None
    case Edited(spec) =>
      if d == None then None
      else Some(Desired(if spec == d.value.spec then d.value.generation else d.value.generation + 1, spec))
  }

  function InterfereAll(d: Option<Desired>, steps: seq<Interference>): Option<Desired> {
    if steps == [] then d else Interfere(InterfereAll(d, steps[..|steps| - 1]), steps[|steps| - 1])
  }

  lemma OneMoreInterference(now: Option<Desired>, before: Option<Desired>, steps: seq<Interference>, k: nat)
    requires k < |steps| && now == InterfereAll(before, steps[..k])
    ensures Interfere(now, steps[k]) == InterfereAll(before, steps[..k + 1])
  {
    assert steps[..k + 1][..k] == steps[..k];
  }

  datatype Reply = Done | Conflict | NotFound

  class Store {
    var stored: Option<Object>
    var cached: Option<Object>
    var versions: nat

    /** What is cached was stored at some time: with the present version it is the present object. */
    ghost predicate Valid()
      reads this
    {
      && (stored.Some? ==> stored.value.version < versions)
      && (cached.Some? ==> cached.value.version < versions)
      && (stored.Some? && cached.Some? ==>
            cached.value.version <= stored.value.version
            && (cached.value.version == stored.value.version ==> cached == stored))
    }

    method CatchUp()
      requires Valid()
      modifies this`cached
      ensures Valid() && cached == stored
    {
      cached := stored;
    }

    method Change(i: Interference)
      requires Valid()
      modifies this`stored, this`versions
      ensures Valid() && DesiredOf(stored) == Interfere(old(DesiredOf(stored)), i)
      ensures stored.Some? ==> old(stored).Some? && stored.value.status == old(stored).value.status
      ensures stored.Some? && i != Nothing ==> stored.value.version == old(versions)
      ensures i == Nothing ==> stored == old(stored)
    {
      match i
      case Nothing =>
      case Deleted => stored := None;
      case Edited(spec) =>
        if stored.Some? {
          var o := stored.value;
          stored := Some(if spec == o.spec then o.(version := versions)
                         else o.(generation := o.generation + 1, version := versions, spec := spec, since := versions));
          versions := versions + 1;
        }
    }

    /** The status subresource: only the status of the sent object is taken. */
    method UpdateStatus(sent: Object) returns (reply: Reply)
      requires Valid()
      modifies this`stored, this`versions
      ensures Valid() && DesiredOf(stored) == old(DesiredOf(stored))
      ensures reply == if old(stored) == None then NotFound
                       else if old(stored).value.version != sent.version then Conflict else Done
      ensures reply == Done ==> stored.value.status == Persisted(sent.status)
      ensures reply != Done ==> stored == old(stored)
    {
      if stored == None {
        return NotFound;
      }
      if stored.value.version != sent.version {
        return Conflict;
      }
      stored := Some(stored.value.(version := versions, status := Persisted(sent.status)));
      versions := versions + 1;
      return Done;
    }
  }

  datatype WriteResult = Landed | Gone | Exhausted

  /** retry.RetryOnConflict over Get and Status().Update. Whatever happens between them and however
      far the cache is behind, the spec and the generation are those the others left. When the
      status landed, it is the one to be written, and nobody interfered with the last attempt. A
      deleted object is no error, nor is one that the cache does not show. Five attempts are
      exhausted only if each was disturbed or started from a cache that had not caught up. */
  method WriteStatus(store: Store, status: Status, caughtUp: seq<bool>, between: seq<Interference>)
    returns (result: WriteResult, ghost attempts: nat)
    requires store.Valid() && |caughtUp| == |between| == RETRY_STEPS
    modifies store
    ensures store.Valid() && attempts <= RETRY_STEPS
    ensures DesiredOf(store.stored) == InterfereAll(old(DesiredOf(store.stored)), between[..attempts])
    ensures result == Landed ==>
      store.stored.Some? && store.stored.value.status == Persisted(status) &&
      attempts > 0 && between[attempts - 1] == Nothing
    ensures result == Gone ==> store.stored == None || store.cached == None
    ensures result != Landed && store.stored.Some? ==>
      old(store.stored).Some? && store.stored.value.status == old(store.stored).value.status
    ensures result == Exhausted ==>
      && attempts == RETRY_STEPS && store.stored.Some?
      && forall i :: 0 <= i < RETRY_STEPS ==> between[i] != Nothing || !caughtUp[i]
  {
    attempts := 0;
    for k := 0 to RETRY_STEPS
      invariant attempts == k && store.Valid()
      invariant DesiredOf(store.stored) == InterfereAll(old(DesiredOf(store.stored)), between[..k])
      invariant k > 0 ==> store.stored.Some?
      invariant store.stored.Some? ==> old(store.stored).Some? && store.stored.value.status == old(store.stored).value.status
      invariant forall i :: 0 <= i < k ==> between[i] != Nothing || !caughtUp[i]
    {
      if caughtUp[k] {
        store.CatchUp();
      }
      var got := store.cached;
      if got == None {
        return Gone, attempts;
      }
      OneMoreInterference(DesiredOf(store.stored), old(DesiredOf(store.stored)), between, k);
      store.Change(between[k]);
      attempts := attempts + 1;
      var reply := store.UpdateStatus(got.value.(status := status));
      if reply == Done {
        return Landed, attempts;
      }
      if reply == NotFound {
        return Gone, attempts;
      }
    }
    return Exhausted, attempts;
  }
}
