/** Across validator, reconciler and pod webhook: what a ready status promises about rendering. */
module ReadyMeansRenderable {
  import opened GoStrings
  import opened SearchTemplates
  import opened DnsClass
  import opened DnsClassController
  import opened DnsClassWebhook
  import opened PodWebhook
  import opened StatusHistory
  import opened StatusConvergence
  import opened StatusLineage

  lemma {:induction false} RenderAllElementwise(searches: seq<string>, parameters: map<string, string>, engine: Engine)
    ensures RenderAll(searches, parameters, engine).Some? <==>
            forall s :: s in searches ==> RenderSearch(s, parameters, engine).Some?
    ensures RenderAll(searches, parameters, engine).Some? ==>
            var rendered := RenderAll(searches, parameters, engine).value;
            && |rendered| == |searches|
            && forall i :: 0 <= i < |searches| ==> Some(rendered[i]) == RenderSearch(searches[i], parameters, engine)
  {
    if searches != [] {
      var front, last := searches[..|searches| - 1], searches[|searches| - 1];
      RenderAllElementwise(front, parameters, engine);
      assert searches == front + [last];
    }
  }

  /** All search domains belong to the modelled templates. */
  ghost predicate Templates(spec: Spec) {
    forall s :: s in SearchesOf(spec) ==> Parse(s).Some?
  }

  predicate Uses(spec: Spec, key: string) {
    key in TemplateKeys(spec)
  }

  lemma UsedKeysAreFields(spec: Spec, key: string)
    requires Templates(spec)
    ensures Uses(spec, key) <==> exists s :: s in SearchesOf(spec) && key in FieldNames(Parse(s).value)
  {
    var searches := SearchesOf(spec);
    FirstOccurrencesInOrder(AllKeys(searches));
    KeyOfSomeSearch(searches, key);
    forall s | s in searches
      ensures KeysIn(s) == FieldNames(Parse(s).value)
    {
      KeysAreFields(s);
    }
    if i :| 0 <= i < |searches| && key in KeysIn(searches[i]) {
      assert searches[i] in searches;
    }
  }

  lemma UsedKeysAreSupported(spec: Spec, key: string)
    requires Accepted(spec) && Uses(spec, key)
    ensures key == POD_NAMESPACE || key == CLUSTER_DOMAIN
  {
    AcceptedMeansNoErrors(spec);
    assert !HasError(spec, BadKey(key));
  }

  /** Searches of modelled templates render exactly when all their keys have a value. */
  lemma SearchesRenderIffKeysAreSet(spec: Spec, parameters: map<string, string>, engine: Engine)
    requires Templates(spec)
    ensures RenderAll(SearchesOf(spec), parameters, engine).Some? <==> forall k :: Uses(spec, k) ==> k in parameters
  {
    var searches := SearchesOf(spec);
    RenderAllElementwise(searches, parameters, engine);
    forall s | s in searches
      ensures RenderSearch(s, parameters, engine).Some? <==> forall k :: k in FieldNames(Parse(s).value) ==> k in parameters
    {
      RendersIffKeysAreSet(Parse(s).value, parameters);
    }
    forall k
      ensures Uses(spec, k) <==> exists s :: s in searches && k in FieldNames(Parse(s).value)
    {
      UsedKeysAreFields(spec, k);
    }
  }

  lemma SearchesRenderUnlessAValueIsEmpty(spec: Spec, namespace: string, domain: string, engine: Engine)
    requires Accepted(spec) && Templates(spec)
    ensures RenderAll(SearchesOf(spec), Parameters(namespace, domain), engine) == None <==>
            (Uses(spec, CLUSTER_DOMAIN) && domain == "") || (Uses(spec, POD_NAMESPACE) && namespace == "")
  {
    var parameters := Parameters(namespace, domain);
    SearchesRenderIffKeysAreSet(spec, parameters, engine);
    assert POD_NAMESPACE in parameters <==> namespace != "";
    assert CLUSTER_DOMAIN in parameters <==> domain != "";
    forall k | Uses(spec, k)
      ensures k == POD_NAMESPACE || k == CLUSTER_DOMAIN
    {
      UsedKeysAreSupported(spec, k);
    }
  }

  /** The status is what a successful reconcile of this spec writes, whatever status it read. */
  ghost predicate ReadyForSpec(c: Class) {
    exists first, second, before ::
      !Round(c.spec, first, second).Fails() && c.status == Persisted(StatusAfter(Round(c.spec, first, second), before))
  }

  lemma ReadyHasFields(c: Class)
    requires ReadyForSpec(c) && c.spec.policy == NONE
    ensures c.status.state == STATE_READY && c.status.discovered.Some?
  {
  }

  /** A class that was accepted and is ready for its spec: the webhook never crashes on it; it fails
      to render exactly when a placeholder it uses has an empty value, and otherwise only if nobody
      names a nameserver. When it succeeds, every search domain is its template with the values put
      in place of the placeholders. */
  lemma ReadyIsRenderable(c: Class, namespace: string, engine: Engine)
    requires Accepted(c.spec) && Templates(c.spec) && c.spec.policy == NONE
    requires ReadyForSpec(c)
    ensures c.status.state == STATE_READY && c.status.discovered.Some?
    ensures var discovered, outcome := c.status.discovered.value, ConfigFor(c, namespace, engine);
            var emptyValue := (Uses(c.spec, CLUSTER_DOMAIN) && discovered.clusterDomain == "")
                              || (Uses(c.spec, POD_NAMESPACE) && namespace == "");
            && (outcome.error == Some(BadSearch) <==> emptyValue)
            && (outcome.error == Some(NoNameservers) <==>
                  !emptyValue && ConfigOrEmpty(c).nameservers == None && discovered.nameservers == None)
            && outcome.error != Some(NilDiscoveredFields)
            && (outcome.error == None ==>
                  Replaced(SearchesOf(c.spec), outcome.written.value.searches, namespace, discovered.clusterDomain))
  {
    ReadyHasFields(c);
    var discovered := c.status.discovered.value;
    assert Elements(ConfigOrEmpty(c).searches) == SearchesOf(c.spec);
    SearchesRenderUnlessAValueIsEmpty(c.spec, namespace, discovered.clusterDomain, engine);
    if RenderAll(SearchesOf(c.spec), Parameters(namespace, discovered.clusterDomain), engine).Some? {
      RenderedSearches(c.spec, namespace, discovered.clusterDomain, engine);
    }
  }

  lemma RenderedSearches(spec: Spec, namespace: string, domain: string, engine: Engine)
    requires Templates(spec)
    requires RenderAll(SearchesOf(spec), Parameters(namespace, domain), engine).Some?
    ensures Replaced(SearchesOf(spec), RenderAll(SearchesOf(spec), Parameters(namespace, domain), engine), namespace, domain)
  {
    var searches, parameters := SearchesOf(spec), Parameters(namespace, domain);
    RenderAllElementwise(searches, parameters, engine);
    forall i | 0 <= i < |searches|
      ensures FilledIn(searches[i], RenderAll(searches, parameters, engine).value[i], namespace, domain)
    {
      assert searches[i] in searches;
      RenderedSearch(searches[i], namespace, domain, engine);
    }
  }

  /** Each search domain is the text of its template with the namespace and the domain put in place of
      the placeholders. */
  ghost predicate Replaced(templates: seq<string>, searches: Slice, namespace: string, domain: string) {
    && searches.Some? && |searches.value| == |templates|
    && forall i :: 0 <= i < |templates| ==> FilledIn(templates[i], searches.value[i], namespace, domain)
  }

  /** The cluster domain a class uses was found and is not empty. */
  ghost predicate DomainKnown(o: Object) {
    Uses(o.spec, CLUSTER_DOMAIN) && o.status.discovered.Some? ==> o.status.discovered.value.clusterDomain != ""
  }

  ghost predicate NobodyNamesServers(c: Class) {
    && c.spec.policy == NONE && ConfigOrEmpty(c).nameservers == None
    && c.status.discovered.Some? && c.status.discovered.value.nameservers == None
  }

  /** What the webhook reads of an object of this name. */
  function ClassOf(name: string, o: Object): Class {
    Class(name, o.spec, o.status)
  }

  lemma SettledIsReady(name: string, o: Object)
    requires Settled(o)
    ensures ReadyForSpec(ClassOf(name, o)) && o.status.state == STATE_READY
  {
    var work := o.origin.work;
    assert !Round(o.spec, work.first, work.second).Fails();
  }

  /** So after any interleaving of edits, reconciles and writes, once no work is pending, the pods for
      which an accepted class is selected get its configuration, exactly unless nobody names a
      nameserver. A pod under policy None gets the search domains of the class with its own namespace
      and the domain in place of the placeholders: the one that the reconcile was given. */
  lemma QuiescentClassServesPods(steps: seq<Step>, name: string, classes: seq<Class>, pod: PodView, engine: Engine)
    requires IsRun(INIT, steps)
    requires Quiescent(After(INIT, steps)) && !After(INIT, steps).abandoned && After(INIT, steps).store.Some?
    requires Accepted(After(INIT, steps).store.value.spec) && Templates(After(INIT, steps).store.value.spec)
    requires DomainKnown(After(INIT, steps).store.value) && pod.namespace != ""
    requires Select(classes, pod.namespace, pod.policy) == Some(ClassOf(name, After(INIT, steps).store.value))
    ensures Respond(Some(classes), Some(pod), engine).Patched? <==>
            !NobodyNamesServers(ClassOf(name, After(INIT, steps).store.value))
    ensures Respond(Some(classes), Some(pod), engine).Patched? ==>
            GetsSearches(Admitted(classes, pod, engine), After(INIT, steps).store.value)
  {
    QuiescentMeansSettled(steps);
    SettledClassServesPods(name, After(INIT, steps).store.value, classes, pod, engine);
  }

  lemma {:induction false} SettledClassServesPods(name: string, o: Object, classes: seq<Class>, pod: PodView, engine: Engine)
    requires Settled(o) && Accepted(o.spec) && Templates(o.spec) && DomainKnown(o) && pod.namespace != ""
    requires Select(classes, pod.namespace, pod.policy) == Some(ClassOf(name, o))
    ensures Respond(Some(classes), Some(pod), engine).Patched? <==> !NobodyNamesServers(ClassOf(name, o))
    ensures Respond(Some(classes), Some(pod), engine).Patched? ==> GetsSearches(Admitted(classes, pod, engine), o)
  {
    SettledIsReady(name, o);
    PatchesOnlyDnsFields(classes, pod, engine);
    if o.spec.policy == NONE {
      ReadyIsRenderable(ClassOf(name, o), pod.namespace, engine);
      SettledHoldsWhatWasGiven(o);
    }
  }

  /** The pod's search domains are those of the class, filled in with the pod's namespace and with the
      domain that the class holds, which its reconcile was given if a placeholder uses it. */
  ghost predicate GetsSearches(pod: PodView, o: Object) {
    o.spec.policy == NONE ==>
      && pod.config.Some? && o.status.discovered.Some? && o.origin.Written?
      && Replaced(SearchesOf(o.spec), pod.config.value.searches, pod.namespace, o.status.discovered.value.clusterDomain)
      && (Uses(o.spec, CLUSTER_DOMAIN) ==> GivesDomain(o.origin.work.first, o.status.discovered.value.clusterDomain))
  }

  // ---------- when the webhook dereferences nil ----------

  /** Exactly when the selected class is ready, has policy None and no discovered fields. */
  lemma CrashesExactlyWithoutFields(classes: seq<Class>, pod: PodView, engine: Engine)
    ensures Respond(Some(classes), Some(pod), engine) == Crashed <==>
            var selected := Select(classes, pod.namespace, pod.policy);
            && selected.Some? && selected.value.status.state == STATE_READY
            && selected.value.spec.policy == NONE && selected.value.status.discovered == None
  {
  }

  /** The status is ready although no reconcile behind it created discovered fields: the last one
      succeeded, and none that succeeded had policy None. */
  ghost predicate ReadyWithoutFields(o: Object) {
    && o.origin.Written? && !o.origin.work.Fails()
    && forall r :: r in Rounds(o) ==> !Creates(r)
  }

  /** Over every interleaving, for whatever the webhook may see of a class, in its cache, under way
      or stored: it crashes exactly if the spec has policy None while the status was written by a
      reconcile that succeeded and none behind it created fields. Then the status belongs to an
      older generation, so it is no settled one. */
  lemma CrashNeedsAnOlderSpec(steps: seq<Step>, o: Object, name: string, classes: seq<Class>, pod: PodView, engine: Engine)
    requires IsRun(INIT, steps) && Some(o) in History(After(INIT, steps))
    requires Select(classes, pod.namespace, pod.policy) == Some(ClassOf(name, o))
    ensures Respond(Some(classes), Some(pod), engine) == Crashed <==> o.spec.policy == NONE && ReadyWithoutFields(o)
    ensures Respond(Some(classes), Some(pod), engine) == Crashed ==> Outdated(o) && !Settled(o)
  {
    CrashesExactlyWithoutFields(classes, pod, engine);
    StatusOfAnyRun(steps, o);
    if o.spec.policy == NONE && ReadyWithoutFields(o) {
      WriterHasOtherPolicy(o);
      ReadIsOlder(steps, o);
    }
  }

  lemma WriterHasOtherPolicy(o: Object)
    requires ReadyWithoutFields(o)
    ensures o.origin.work.read.spec.policy != NONE
  {
    var r := o.origin.work.AsRound();
    assert Rounds(o)[|Rounds(o)| - 1] == r;
    assert !Creates(r);
  }

  // ---------- the conditions are needed ----------

  /** The template of "{{.clusterDomain}}". */
  const DOMAIN_ONLY := Then("", "", CLUSTER_DOMAIN, "", Last(""))

  /** An empty discovered domain counts as discovered: the class becomes ready and cannot render. */
  lemma EmptyDomainIsReadyButUnrenderable(engine: Engine)
    ensures var spec := Spec(None, None, None, NONE, Some(DnsConfig(None, Some([Print(DOMAIN_ONLY)]), None)));
            var found := Config(map[CLUSTER_DOMAIN := JString(""), CLUSTER_DNS := JArray([])]);
            var c := Class("c", spec, Persisted(StatusAfter(Round(spec, found, found), NO_STATUS)));
            c.status.state == STATE_READY && ConfigFor(c, "ns", engine).error == Some(BadSearch)
  {
    var search, parameters := Print(DOMAIN_ONLY), Parameters("ns", "");
    DomainOnlyFails(parameters, engine);
    assert [search][..0] == [] && [search][0] == search;
    assert RenderAll([search], parameters, engine) == None;
  }

  lemma DomainOnlyFails(parameters: map<string, string>, engine: Engine)
    requires CLUSTER_DOMAIN !in parameters
    ensures RenderSearch(Print(DOMAIN_ONLY), parameters, engine) == None
  {
    assert FieldName(CLUSTER_DOMAIN);
    ParseInvertsPrint(DOMAIN_ONLY);
  }

  /** A class that becomes ready and is then edited. */
  function EditedWhenReady(previous: Spec, spec: Spec, first: Fetch, second: Fetch): seq<Step> {
    Started(previous, first, second) + [Get, Update, Edit(spec)]
  }

  lemma EditedRun(previous: Spec, spec: Spec, first: Fetch, second: Fetch)
    ensures var steps := EditedWhenReady(previous, spec, first, second);
            && IsRun(INIT, steps) && After(INIT, steps).store.Some?
            && After(INIT, steps).store.value.spec == spec
            && After(INIT, steps).store.value.status
               == Persisted(StatusAfter(Round(previous, first, second), NO_STATUS))
  {
    StartedRun(previous, first, second);
    var s3 := Started(previous, first, second);
    OneMoreStep(INIT, s3, Get);
    var s4 := s3 + [Get];
    OneMoreStep(INIT, s4, Update);
    var s5 := s4 + [Update];
    OneMoreStep(INIT, s5, Edit(spec));
    assert s5 + [Edit(spec)] == EditedWhenReady(previous, spec, first, second);
  }

  /** Any class that becomes ready with another policy and is then edited to policy None: until the
      next status lands, the webhook dereferences nil for every pod it is selected for. */
  lemma EditedClassCrashes(previous: Spec, spec: Spec, first: Fetch, second: Fetch, name: string, classes: seq<Class>,
                           pod: PodView, engine: Engine)
    requires previous.policy != NONE && spec.policy == NONE
    ensures var steps := EditedWhenReady(previous, spec, first, second);
            && IsRun(INIT, steps) && After(INIT, steps).store.Some?
            && (Select(classes, pod.namespace, pod.policy) == Some(ClassOf(name, After(INIT, steps).store.value)) ==>
                  Respond(Some(classes), Some(pod), engine) == Crashed)
  {
    EditedRun(previous, spec, first, second);
    CrashesExactlyWithoutFields(classes, pod, engine);
  }
}
