/** The status that a chain of reconciles makes, each starting from the status the one before wrote,
    whatever specs they read and whatever discovery brought. Which reconciles stand behind a stored
    status is the subject of StatusLineage. */
module StatusHistory {
  import opened GoStrings
  import opened DnsClass
  import opened DnsClassController

  /** A status as it comes back from the API server: an empty list of nameservers is omitted when
      it is written and is nil when it is read. */
  function Persisted(status: Status): Status {
    match status.discovered
    case Some(Discovered(Some(nameservers), domain)) =>
      if nameservers == [] then status.(discovered := Some(Discovered(None, domain))) else status
    case _ => status
  }

  /** The status after a chain of reconciles. */
  function Run(status: Status, rounds: seq<Round>): Status {
    if rounds == [] then status
    else Persisted(StatusAfter(rounds[|rounds| - 1], Run(status, rounds[..|rounds| - 1])))
  }

  /** The status of a class that was just created. */
  const NO_STATUS := Status(None, "", None)

  ghost predicate OneOfEachKind(conditions: seq<Condition>) {
    forall i, j :: 0 <= i < j < |conditions| ==> conditions[i].kind != conditions[j].kind
  }

  ghost predicate HasKind(conditions: seq<Condition>, kind: string) {
    exists c :: c in conditions && c.kind == kind
  }

  lemma {:induction false} SetConditionKeepsKinds(conditions: seq<Condition>, c: Condition)
    requires OneOfEachKind(conditions)
    ensures OneOfEachKind(SetCondition(conditions, c))
    ensures c in SetCondition(conditions, c)
    ensures forall d :: d in SetCondition(conditions, c) ==> d == c || d in conditions
    ensures forall d :: d in conditions && d.kind != c.kind ==> d in SetCondition(conditions, c)
  {
    if conditions != [] {
      assert conditions == [conditions[0]] + conditions[1..];
      if conditions[0].kind != c.kind {
        SetConditionKeepsKinds(conditions[1..], c);
        var rest := SetCondition(conditions[1..], c);
        forall j | 0 <= j < |rest|
          ensures rest[j].kind != conditions[0].kind
        {
          assert rest[j] in rest;
        }
      }
    }
  }

  /** What one reconcile and the write of its status do. */
  lemma OneRound(status: Status, r: Round)
    ensures var next := Persisted(StatusAfter(r, status));
            && next.state == (if r.Fails() then STATE_ERROR else STATE_READY)
            && Conditions(next) == SetCondition(Conditions(status), ConditionFor(r.Fails(), next.state))
            && (next.discovered.Some? <==> status.discovered.Some? || Creates(r))
  {
  }

  ghost predicate KindsTell(conditions: seq<Condition>, rounds: seq<Round>) {
    && OneOfEachKind(conditions)
    && (HasKind(conditions, STATE_READY) <==> exists r :: r in rounds && !r.Fails())
    && (HasKind(conditions, STATE_ERROR) <==> exists r :: r in rounds && r.Fails())
    && forall c :: c in conditions ==>
         c == Condition("ready", "True", "ReconcileCompleted") || c == Condition("error", "True", "ReconcileError")
  }

  lemma OneMoreRoundTells(conditions: seq<Condition>, rounds: seq<Round>, r: Round, c: Condition)
    requires KindsTell(conditions, rounds)
    requires c == if r.Fails() then Condition("error", "True", "ReconcileError")
                  else Condition("ready", "True", "ReconcileCompleted")
    ensures KindsTell(SetCondition(conditions, c), rounds + [r])
  {
    SetConditionKeepsKinds(conditions, c);
    var after, more := SetCondition(conditions, c), rounds + [r];
    assert r in more && forall q :: q in more <==> q in rounds || q == r;
    if r.Fails() {
      assert HasKind(after, STATE_ERROR);
      assert HasKind(after, STATE_READY) <==> HasKind(conditions, STATE_READY);
    } else {
      assert HasKind(after, STATE_READY);
      assert HasKind(after, STATE_ERROR) <==> HasKind(conditions, STATE_ERROR);
    }
  }

  lemma OneRoundTells(before: Status, rounds: seq<Round>, r: Round)
    requires KindsTell(Conditions(before), rounds)
    ensures KindsTell(Conditions(Persisted(StatusAfter(r, before))), rounds + [r])
  {
    OneRound(before, r);
    OneMoreRoundTells(Conditions(before), rounds, r, ConditionFor(r.Fails(), Persisted(StatusAfter(r, before)).state));
  }

  lemma {:induction false} KindsAfterRun(rounds: seq<Round>)
    ensures KindsTell(Conditions(Run(NO_STATUS, rounds)), rounds)
  {
    if rounds != [] {
      var front, last := rounds[..|rounds| - 1], rounds[|rounds| - 1];
      assert rounds == front + [last];
      KindsAfterRun(front);
      OneRoundTells(Run(NO_STATUS, front), front, last);
    }
  }

  /** After any chain of at least one reconcile: the state is error exactly when the last reconcile
      failed, and otherwise ready; a ready status of a class with policy None has discovered
      fields; the conditions are one "ready" if some reconcile succeeded and one "error" if some
      failed, never an "initializing" one. */
  lemma StoredStatusInvariant(rounds: seq<Round>)
    requires rounds != []
    ensures var status, last := Run(NO_STATUS, rounds), rounds[|rounds| - 1];
            && status.state == (if last.Fails() then STATE_ERROR else STATE_READY)
            && (last.spec.policy == NONE && status.state == STATE_READY ==> status.discovered.Some?)
            && KindsTell(Conditions(status), rounds)
  {
    KindsAfterRun(rounds);
    OneRound(Run(NO_STATUS, rounds[..|rounds| - 1]), rounds[|rounds| - 1]);
  }

  // ---------- discovered fields ----------

  /** The reconciles that create discovered fields when there are none. */
  predicate Creates(r: Round) {
    r.spec.policy == NONE && !r.Fails()
  }

  /** Along a chain discovered fields stay once they are there; until then only a reconcile that
      succeeds for policy None creates them, so failing ones leave none. */
  lemma {:induction false} DiscoveredExactlyOnceCreated(status: Status, rounds: seq<Round>)
    ensures Run(status, rounds).discovered.Some? <==>
            status.discovered.Some? || exists r :: r in rounds && Creates(r)
  {
    if rounds != [] {
      var front, last := rounds[..|rounds| - 1], rounds[|rounds| - 1];
      DiscoveredExactlyOnceCreated(status, front);
      OneRound(Run(status, front), last);
      LastOrBefore(rounds);
    }
  }

  lemma LastOrBefore(rounds: seq<Round>)
    requires rounds != []
    ensures forall r :: r in rounds <==> r in rounds[..|rounds| - 1] || r == rounds[|rounds| - 1]
  {
    assert rounds == rounds[..|rounds| - 1] + [rounds[|rounds| - 1]];
  }

  /** The last domain and nameservers that a reconcile for policy None extracted. */
  function LastDomain(rounds: seq<Round>, initial: string): string {
    if rounds == [] then initial
    else
      var r := rounds[|rounds| - 1];
      match ExtractString(r.first, CLUSTER_DOMAIN)
      case Value(domain) => if r.spec.policy == NONE then domain else LastDomain(rounds[..|rounds| - 1], initial)
      case Error(_) => LastDomain(rounds[..|rounds| - 1], initial)
  }

  function LastNameservers(rounds: seq<Round>, initial: Slice): Slice {
    if rounds == [] then initial
    else
      var r := rounds[|rounds| - 1];
      match ExtractStrings(r.second, CLUSTER_DNS)
      case Value(servers) =>
        if r.spec.policy == NONE then Some(servers) else LastNameservers(rounds[..|rounds| - 1], initial)
      case Error(_) => LastNameservers(rounds[..|rounds| - 1], initial)
  }

  /** Fields that exist hold what was extracted last, whether or not the reconciles succeeded: an
      extraction that fails leaves its field alone, and one that succeeds counts even when the
      other one makes the reconcile fail, because both write through the status's own pointer. */
  lemma {:induction false} FieldsHoldTheLastExtraction(status: Status, rounds: seq<Round>)
    requires status.discovered.Some?
    ensures var discovered := Run(status, rounds).discovered;
            && discovered.Some?
            && discovered.value.clusterDomain == LastDomain(rounds, status.discovered.value.clusterDomain)
            && Elements(discovered.value.nameservers)
               == Elements(LastNameservers(rounds, status.discovered.value.nameservers))
  {
    if rounds != [] {
      FieldsHoldTheLastExtraction(status, rounds[..|rounds| - 1]);
    }
  }

  lemma FirstCreation(before: Status, r: Round)
    requires before.discovered == None && Creates(r)
    ensures var fields := Persisted(StatusAfter(r, before)).discovered;
            && fields.Some? && fields.value.clusterDomain == LastDomain([r], "")
            && Elements(fields.value.nameservers) == Elements(LastNameservers([r], None))
  {
    assert [r][..0] == [];
  }

  /** A status without discovered fields remembers nothing of the reconciles before the first that
      creates them: partial successes of failing reconciles are dropped. */
  lemma {:induction false} NothingIsRememberedBefore(status: Status, rounds: seq<Round>, first: nat)
    requires status.discovered == None
    requires first < |rounds| && Creates(rounds[first])
    requires forall i :: 0 <= i < first ==> !Creates(rounds[i])
    ensures var discovered := Run(status, rounds).discovered;
            && discovered.Some?
            && discovered.value.clusterDomain == LastDomain(rounds[first..], "")
            && Elements(discovered.value.nameservers) == Elements(LastNameservers(rounds[first..], None))
  {
    DiscoveredExactlyOnceCreated(status, rounds[..first]);
    RoundsInTwoParts(status, rounds, first);
    assert rounds[first..] == [rounds[first]] + rounds[first + 1..];
    RememberedFromCreation(Run(status, rounds[..first]), rounds[first], rounds[first + 1..]);
  }

  lemma RememberedFromCreation(before: Status, r: Round, rest: seq<Round>)
    requires before.discovered == None && Creates(r)
    ensures var discovered := Run(before, [r] + rest).discovered;
            && discovered.Some?
            && discovered.value.clusterDomain == LastDomain([r] + rest, "")
            && Elements(discovered.value.nameservers) == Elements(LastNameservers([r] + rest, None))
  {
    var created := Persisted(StatusAfter(r, before));
    OneThenRest(before, r, rest);
    FirstCreation(before, r);
    ElementsOfLast(rest, created.discovered.value.nameservers, LastNameservers([r], None));
    FieldsHoldTheLastExtraction(created, rest);
    LastInTwoParts(r, rest);
  }

  lemma OneThenRest(status: Status, r: Round, rest: seq<Round>)
    ensures Run(status, [r] + rest) == Run(Persisted(StatusAfter(r, status)), rest)
  {
    assert ([r] + rest)[..1] == [r] && ([r] + rest)[1..] == rest;
    assert [r][..0] == [];
    RoundsInTwoParts(status, [r] + rest, 1);
  }

  lemma {:induction false} ElementsOfLast(rounds: seq<Round>, a: Slice, b: Slice)
    requires Elements(a) == Elements(b)
    ensures Elements(LastNameservers(rounds, a)) == Elements(LastNameservers(rounds, b))
  {
    if rounds != [] {
      ElementsOfLast(rounds[..|rounds| - 1], a, b);
    }
  }

  lemma {:induction false} RoundsInTwoParts(status: Status, rounds: seq<Round>, n: nat)
    requires n <= |rounds|
    ensures Run(status, rounds) == Run(Run(status, rounds[..n]), rounds[n..])
    decreases |rounds|
  {
    if n == |rounds| {
      assert rounds[..n] == rounds;
    } else {
      var front := rounds[..|rounds| - 1];
      RoundsInTwoParts(status, front, n);
      SlicesOfFront(rounds, n);
    }
  }

  lemma SlicesOfFront(rounds: seq<Round>, n: nat)
    requires n < |rounds|
    ensures rounds[..|rounds| - 1][..n] == rounds[..n]
    ensures rounds[n..][..|rounds[n..]| - 1] == rounds[..|rounds| - 1][n..]
    ensures rounds[n..][|rounds[n..]| - 1] == rounds[|rounds| - 1]
  {
  }

  lemma {:induction false} LastInTwoParts(r: Round, rounds: seq<Round>)
    ensures LastDomain([r] + rounds, "") == LastDomain(rounds, LastDomain([r], ""))
    ensures LastNameservers([r] + rounds, None) == LastNameservers(rounds, LastNameservers([r], None))
  {
    if rounds == [] {
      assert [r] + rounds == [r];
    } else {
      LastInTwoParts(r, rounds[..|rounds| - 1]);
      assert ([r] + rounds)[..|rounds|] == [r] + rounds[..|rounds| - 1];
    }
  }
}
