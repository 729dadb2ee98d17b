/** The reconciler: discovery through a shared pointer, and the status it computes in place. */
module DnsClassController {
  import opened GoStrings
  import opened DnsClass
  import opened DeepCopy

  // ---------- discovery ----------

  /** A decoded JSON value, as far as the type checks look. */
  datatype Json = JString(text: string) | JArray(items: seq<Json>) | JOther

  /** What one call of fetchNodeProxyConfigz brings. */
  datatype Fetch = Unavailable | Config(fields: map<string, Json>)

  datatype ExtractError =
    | FetchFailed
    | NotFound(field: string)
    | NotAString(field: string)
    | NotASlice(field: string)
    | ElementNotAString(index: nat, field: string)

  datatype Extracted<+T> = Value(value: T) | Error(error: ExtractError)

  function ExtractString(fetch: Fetch, field: string): Extracted<string> {
    match fetch
    case Unavailable => Error(FetchFailed)
    case Config(fields) =>
      if field !in fields then Error(NotFound(field))
      else if fields[field].JString? then Value(fields[field].text)
      else Error(NotAString(field))
  }

  function FirstNonString(items: seq<Json>): (i: nat)
    ensures i <= |items|
    ensures forall j :: 0 <= j < i ==> items[j].JString?
    ensures i < |items| ==> !items[i].JString?
  {
    if items == [] || !items[0].JString? then 0 else 1 + FirstNonString(items[1..])
  }

  function Texts(items: seq<Json>): (texts: seq<string>)
    requires forall j :: 0 <= j < |items| ==> items[j].JString?
    ensures |texts| == |items|
    ensures forall j :: 0 <= j < |items| ==> texts[j] == items[j].text
  {
    seq(|items|, j requires 0 <= j < |items| => items[j].text)
  }

  function ExtractStrings(fetch: Fetch, field: string): Extracted<seq<string>> {
    match fetch
    case Unavailable => Error(FetchFailed)
    case Config(fields) =>
      if field !in fields then Error(NotFound(field))
      else if !fields[field].JArray? then Error(NotASlice(field))
      else
        var items := fields[field].items;
        var bad := FirstNonString(items);
        if bad < |items| then Error(ElementNotAString(bad, field)) else Value(Texts(items))
  }

  /** The slice case of extractField, with its loop over the elements. */
  method ExtractSlice(fetch: Fetch, field: string) returns (r: Extracted<seq<string>>)
    ensures r == ExtractStrings(fetch, field)
  {
    if fetch == Unavailable {
      return Error(FetchFailed);
    }
    if field !in fetch.fields {
      return Error(NotFound(field));
    }
    if !fetch.fields[field].JArray? {
      return Error(NotASlice(field));
    }
    var items := fetch.fields[field].items;
    var texts: seq<string> := [];
    for i := 0 to |items|
      invariant FirstNonString(items) >= i
      invariant |texts| == i && forall j :: 0 <= j < i ==> items[j].JString? && texts[j] == items[j].text
    {
      if !items[i].JString? {
        return Error(ElementNotAString(i, field));
      }
      texts := texts + [items[i].text];
    }
    assert texts == Texts(items);
    return Value(texts);
  }

  /** What discovery makes of the fields, which of them it did not discover, and why not. */
  datatype Discovery = Discovery(fields: Discovered, failed: set<string>, errors: seq<ExtractError>)

  const CLUSTER_DNS := "clusterDNS"

  function Discover(fields: Discovered, first: Fetch, second: Fetch): Discovery {
    var domain := ExtractString(first, CLUSTER_DOMAIN);
    var nameservers := ExtractStrings(second, CLUSTER_DNS);
    Discovery(
      Discovered(if nameservers.Value? then Some(nameservers.value) else fields.nameservers,
                 if domain.Value? then domain.value else fields.clusterDomain),
      (if domain.Value? then {} else {CLUSTER_DOMAIN}) + (if nameservers.Value? then {} else {NAMESERVERS}),
      (if domain.Value? then [] else [domain.error]) + (if nameservers.Value? then [] else [nameservers.error]))
  }

  method DiscoverFields(fields: DiscoveredFields, first: Fetch, second: Fetch)
    returns (failed: set<string>, errors: seq<ExtractError>)
    modifies fields
    ensures Discovery(fields.View(), failed, errors) == Discover(old(fields.View()), first, second)
  {
    failed, errors := {}, [];
    var domain := ExtractString(first, CLUSTER_DOMAIN);
    if domain.Error? {
      failed := failed + {CLUSTER_DOMAIN};
      errors := errors + [domain.error];
    } else {
      fields.clusterDomain := domain.value;
    }
    var nameservers := ExtractSlice(second, CLUSTER_DNS);
    if nameservers.Error? {
      failed := failed + {NAMESERVERS};
      errors := errors + [nameservers.error];
    } else {
      var slice := new string[|nameservers.value|](i requires 0 <= i < |nameservers.value| => nameservers.value[i]);
      assert slice[..] == nameservers.value;
      fields.nameservers := slice;
    }
  }

  // ---------- the status computed by one reconcile ----------

  type Failure = Option<seq<ExtractError>>

  /** One reconcile: the spec it read and what its two fetches bring. */
  datatype Round = Round(spec: Spec, first: Fetch, second: Fetch)
  {
    function Found(fields: Discovered): Discovery {
      Discover(fields, first, second)
    }

    /** It fails when its templates use a field it did not discover. */
    predicate Fails() {
      spec.policy == NONE && exists k :: k in TemplateKeys(spec) && k in Found(NOTHING).failed
    }

    function Failure(): Failure {
      if Fails() then Some(Found(NOTHING).errors) else None
    }
  }

  const NOTHING := Discovered(None, "")

  function DiscoveredAfter(r: Round, before: Option<Discovered>): Option<Discovered> {
    if r.spec.policy != NONE then before
    else if before.Some? then Some(r.Found(before.value).fields)
    else if r.Fails() then None
    else Some(r.Found(NOTHING).fields)
  }

  // ---------- what the configuration of the kubelet decides ----------

  /** The configuration has this string as its cluster domain. */
  ghost predicate GivesDomain(fetch: Fetch, domain: string) {
    fetch.Config? && "clusterDomain" in fetch.fields && fetch.fields["clusterDomain"] == JString(domain)
  }

  /** The configuration has an array of strings only, these, as its nameservers. */
  ghost predicate GivesServers(fetch: Fetch, servers: seq<string>) {
    && fetch.Config? && "clusterDNS" in fetch.fields && fetch.fields["clusterDNS"].JArray?
    && var items := fetch.fields["clusterDNS"].items;
       |items| == |servers| && forall i :: 0 <= i < |items| ==> items[i] == JString(servers[i])
  }

  lemma DomainIsExtracted(fetch: Fetch, domain: string)
    ensures ExtractString(fetch, CLUSTER_DOMAIN) == Value(domain) <==> GivesDomain(fetch, domain)
  {
  }

  lemma ServersAreExtracted(fetch: Fetch, servers: seq<string>)
    ensures ExtractStrings(fetch, CLUSTER_DNS) == Value(servers) <==> GivesServers(fetch, servers)
  {
    if GivesServers(fetch, servers) {
      var items := fetch.fields[CLUSTER_DNS].items;
      assert FirstNonString(items) == |items|;
      assert Texts(items) == servers;
    }
  }

  /** Extraction yields what the configurations give and fails when they give nothing of the kind: one
      element that is no string fails the whole list. */
  lemma Extraction(first: Fetch, second: Fetch)
    ensures forall domain :: ExtractString(first, CLUSTER_DOMAIN) == Value(domain) <==> GivesDomain(first, domain)
    ensures forall servers :: ExtractStrings(second, CLUSTER_DNS) == Value(servers) <==> GivesServers(second, servers)
    ensures ExtractString(first, CLUSTER_DOMAIN).Error? <==> forall domain :: !GivesDomain(first, domain)
    ensures ExtractStrings(second, CLUSTER_DNS).Error? <==> forall servers :: !GivesServers(second, servers)
  {
    forall domain
      ensures ExtractString(first, CLUSTER_DOMAIN) == Value(domain) <==> GivesDomain(first, domain)
    {
      DomainIsExtracted(first, domain);
    }
    forall servers
      ensures ExtractStrings(second, CLUSTER_DNS) == Value(servers) <==> GivesServers(second, servers)
    {
      ServersAreExtracted(second, servers);
    }
    if ExtractString(first, CLUSTER_DOMAIN).Value? {
      DomainIsExtracted(first, ExtractString(first, CLUSTER_DOMAIN).value);
    }
    if ExtractStrings(second, CLUSTER_DNS).Value? {
      ServersAreExtracted(second, ExtractStrings(second, CLUSTER_DNS).value);
    }
  }

  /** A reconcile fails exactly if its class has policy None and uses a field that it was not given:
      the cluster domain by the first fetch, or the nameservers by the second. */
  lemma FailsExactly(r: Round)
    ensures r.Fails() <==>
            && r.spec.policy == "None"
            && (("clusterDomain" in TemplateKeys(r.spec) && forall domain :: !GivesDomain(r.first, domain)) ||
                ("nameservers" in TemplateKeys(r.spec) && forall servers :: !GivesServers(r.second, servers)))
  {
    Extraction(r.first, r.second);
    assert CLUSTER_DOMAIN in r.Found(NOTHING).failed <==> ExtractString(r.first, CLUSTER_DOMAIN).Error?;
    assert NAMESERVERS in r.Found(NOTHING).failed <==> ExtractStrings(r.second, CLUSTER_DNS).Error?;
  }

  /** What a successful reconcile for policy None discovers: what it was given, and otherwise what
      was known before. */
  lemma DiscoversWhatIsGiven(r: Round, before: Status)
    requires r.spec.policy == "None" && !r.Fails()
    ensures var known := if before.discovered.Some? then before.discovered.value else NOTHING;
            var now := StatusAfter(r, before).discovered;
            && now.Some?
            && (forall domain :: GivesDomain(r.first, domain) ==> now.value.clusterDomain == domain)
            && ((forall domain :: !GivesDomain(r.first, domain)) ==> now.value.clusterDomain == known.clusterDomain)
            && (forall servers :: GivesServers(r.second, servers) ==> now.value.nameservers == Some(servers))
            && ((forall servers :: !GivesServers(r.second, servers)) ==> now.value.nameservers == known.nameservers)
  {
    Extraction(r.first, r.second);
  }

  /** meta.SetStatusCondition */
  function SetCondition(conditions: seq<Condition>, c: Condition): seq<Condition> {
    if conditions == [] then [c]
    else if conditions[0].kind == c.kind then [c] + conditions[1..]
    else [conditions[0]] + SetCondition(conditions[1..], c)
  }

  function ConditionFor(failed: bool, state: string): Condition {
    if failed then Condition(STATE_ERROR, "True", "ReconcileError")
    else if state == STATE_READY then Condition(STATE_READY, "True", "ReconcileCompleted")
    else Condition(STATE_INIT, "Unknown", "ReconcileStart")
  }

  function Conditions(status: Status): seq<Condition> {
    if status.conditions.Some? then status.conditions.value else []
  }

  /** The status when the deferred update has run. */
  function StatusAfter(r: Round, before: Status): Status {
    var state := if r.Fails() then STATE_ERROR else STATE_READY;
    Status(Some(SetCondition(Conditions(before), ConditionFor(r.Fails(), state))), state,
           DiscoveredAfter(r, before.discovered))
  }

  // ---------- the reconcile itself ----------

  /** The object that Get filled in: the reconciler's own copy. */
  class DnsClassObject {
    var spec: SpecStruct
    var status: StatusStruct

    constructor (spec: SpecStruct, status: StatusStruct)
      ensures this.spec == spec && this.status == status
    {
      this.spec, this.status := spec, status;
    }
  }

  /** One reconcile, up to the write of the status to the store. */
  method Reconcile(dnsclass: DnsClassObject, first: Fetch, second: Fetch) returns (err: Failure)
    modifies dnsclass, dnsclass.status.discovered, dnsclass.status.conditions
    ensures var r := Round(old(dnsclass.spec.View()), first, second);
            dnsclass.status.View() == StatusAfter(r, old(dnsclass.status.View())) && err == r.Failure()
    ensures dnsclass.spec == old(dnsclass.spec)
  {
    ghost var r, before := Round(dnsclass.spec.View(), first, second), dnsclass.status.View();
    err := ReconcileBody(dnsclass, first, second);
    UpdateStatus(dnsclass, err);
    assert dnsclass.status.View() == StatusAfter(r, before);
  }

  /** The function body, without the deferred update. */
  method ReconcileBody(dnsclass: DnsClassObject, first: Fetch, second: Fetch) returns (err: Failure)
    modifies dnsclass`status, dnsclass.status.discovered
    ensures var r, before := Round(old(dnsclass.spec.View()), first, second), old(dnsclass.status.View());
            && err == r.Failure()
            && dnsclass.status.View().discovered == DiscoveredAfter(r, before.discovered)
            && dnsclass.status.View().conditions == before.conditions
    ensures err == None ==> dnsclass.status.state == STATE_READY
    ensures dnsclass.status.conditions == old(dnsclass.status.conditions)
  {
    if dnsclass.status.state == "" {
      SetState(dnsclass, STATE_INIT);
    }
    err := ReconcileFields(dnsclass, first, second);
    if err == None {
      SetState(dnsclass, STATE_READY);
    }
  }

  method SetState(dnsclass: DnsClassObject, state: string)
    modifies dnsclass`status
    ensures dnsclass.status == old(dnsclass.status).(state := state)
    ensures dnsclass.status.View() == old(dnsclass.status.View()).(state := state)
  {
    dnsclass.status := dnsclass.status.(state := state);
  }

  /** The branch for policy None. The fields are filled in through a pointer that the status may
      share, so they keep what was found even when the reconcile fails. */
  method ReconcileFields(dnsclass: DnsClassObject, first: Fetch, second: Fetch) returns (err: Failure)
    modifies dnsclass`status, dnsclass.status.discovered
    ensures var r := Round(old(dnsclass.spec.View()), first, second);
            && err == r.Failure()
            && dnsclass.status.View() == old(dnsclass.status.View()).(discovered := DiscoveredAfter(r, old(dnsclass.status.View()).discovered))
    ensures dnsclass.status.conditions == old(dnsclass.status.conditions)
  {
    if dnsclass.spec.policy != NONE {
      return None;
    }
    ghost var spec, before := dnsclass.spec.View(), dnsclass.status.View();
    ghost var r := Round(spec, first, second);
    var fields := dnsclass.status.discovered;
    if fields == null {
      fields := new DiscoveredFields(null, "");
    }
    var failed, errors := DiscoverFields(fields, first, second);
    assert failed == r.Found(NOTHING).failed && errors == r.Found(NOTHING).errors;
    var missing := UsesMissing(dnsclass.spec, failed, spec);
    if missing {
      return Some(errors);
    }
    if dnsclass.status.discovered == null || dnsclass.status.discovered.View() != fields.View() {
      dnsclass.status := dnsclass.status.(discovered := fields);
    }
    return None;
  }

  /** The loop over the template keys: whether one of them was not discovered. */
  method UsesMissing(spec: SpecStruct, failed: set<string>, ghost view: Spec) returns (missing: bool)
    requires view == spec.View()
    ensures missing <==> exists k :: k in TemplateKeys(view) && k in failed
  {
    if failed == {} {
      return false;
    }
    var keys := ExtractTemplateKeysRegex(spec.View());
    for i := 0 to |keys|
      invariant forall j :: 0 <= j < i ==> keys[j] !in failed
    {
      if keys[i] in failed {
        return true;
      }
    }
    return false;
  }

  method UpdateStatus(dnsclass: DnsClassObject, err: Failure)
    modifies dnsclass`status, dnsclass.status.conditions
    ensures var before := old(dnsclass.status.View());
            var state := if err.Some? then STATE_ERROR else before.state;
            dnsclass.status.View() == Status(
              Some(SetCondition(Conditions(before), ConditionFor(err.Some?, state))), state, before.discovered)
  {
    var condition := Condition(STATE_INIT, "Unknown", "ReconcileStart");
    if err.Some? {
      condition := Condition(STATE_ERROR, "True", "ReconcileError");
      dnsclass.status := dnsclass.status.(state := STATE_ERROR);
    } else if dnsclass.status.state == STATE_READY {
      condition := Condition(STATE_READY, "True", "ReconcileCompleted");
    }
    var conditions := SetStatusCondition(dnsclass.status.conditions, condition);
    dnsclass.status := dnsclass.status.(conditions := conditions);
  }

  /** It changes the condition of the same type in place, or appends. */
  method SetStatusCondition(conditions: array?<Condition>, c: Condition) returns (out: array?<Condition>)
    modifies conditions
    ensures out != null && (out == conditions || fresh(out))
    ensures out[..] == SetCondition(if conditions == null then [] else old(conditions[..]), c)
  {
    if conditions == null {
      out := new Condition[1](_ => c);
      assert out[..] == [c];
      return;
    }
    for i := 0 to conditions.Length
      invariant forall j :: 0 <= j < i ==> conditions[j].kind != c.kind
      invariant conditions[..] == old(conditions[..])
    {
      if conditions[i].kind == c.kind {
        SetConditionAt(conditions[..], i, c);
        conditions[i] := c;
        return conditions;
      }
    }
    SetConditionAt(conditions[..], conditions.Length, c);
    out := new Condition[conditions.Length + 1](
      i requires 0 <= i < conditions.Length + 1 reads conditions =>
        if i < conditions.Length then conditions[i] else c);
    assert out[..] == conditions[..] + [c];
  }

  lemma {:induction false} SetConditionAt(conditions: seq<Condition>, i: nat, c: Condition)
    requires i <= |conditions| && forall j :: 0 <= j < i ==> conditions[j].kind != c.kind
    requires i < |conditions| ==> conditions[i].kind == c.kind
    ensures SetCondition(conditions, c) == if i < |conditions| then conditions[i := c] else conditions + [c]
  {
    if i > 0 {
      SetConditionAt(conditions[1..], i - 1, c);
      assert conditions == [conditions[0]] + conditions[1..];
    }
  }
}
