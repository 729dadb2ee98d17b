/** The pod webhook: choosing the class of a pod, rendering its search domains and writing the
    result through pointers into a working copy of the pod. */
module PodWebhook {
  import opened GoStrings
  import opened SearchTemplates
  import opened DnsClass
  import opened DeepCopy

  const DNS_CLASS_NAME := "kubedns-shepherd.io/dns-class-name"

  /** The parts of a pod the webhook touches, and the rest of it. */
  datatype PodView = PodView(namespace: string, policy: string, config: Option<DnsConfig>,
                             annotations: Option<map<string, string>>, rest: string)

  /** What text/template does with texts outside the modelled templates is left open: rendered text,
      or an error. Every result below holds for every such behaviour. */
  type Engine = (string, map<string, string>) -> Option<string>

  datatype ConfigError = NilDiscoveredFields | BadSearch | NoNameservers

  // ---------- what the webhook computes ----------

  function Parameters(namespace: string, clusterDomain: string): map<string, string> {
    (if namespace != "" then map[POD_NAMESPACE := namespace] else map[])
    + if clusterDomain != "" then map[CLUSTER_DOMAIN := clusterDomain] else map[]
  }

  function RenderSearch(search: string, parameters: map<string, string>, engine: Engine): Option<string> {
    match Parse(search)
    case Some(t) => Render(t, parameters)
    case None => engine(search, parameters)
  }

  /** Rendering fills in the text of the template: the namespace and the domain stand where its
      placeholders stood, and nothing else has changed. */
  lemma {:induction false} RenderedIsFilledIn(t: Template, namespace: string, domain: string)
    requires WellFormed(t) && Render(t, Parameters(namespace, domain)).Some?
    ensures FilledIn(Print(t), Render(t, Parameters(namespace, domain)).value, namespace, domain)
  {
    match t
    case Last(text) =>
      FilledInBehindText(text, "", "", namespace, domain);
      assert text + "" == text;
    case Then(text, before, key, behind, rest) =>
      RenderedIsFilledIn(rest, namespace, domain);
      ParametersAre(key, namespace, domain);
      FilledInThen(text, before, key, behind, Print(rest), Render(rest, Parameters(namespace, domain)).value, namespace, domain);
  }

  lemma ParametersAre(key: string, namespace: string, domain: string)
    requires key in Parameters(namespace, domain)
    ensures key == "podNamespace" || key == "clusterDomain"
    ensures Parameters(namespace, domain)[key] == if key == "podNamespace" then namespace else domain
  {
  }

  /** So for every search domain of the modelled templates. */
  lemma RenderedSearch(search: string, namespace: string, domain: string, engine: Engine)
    requires Parse(search).Some? && RenderSearch(search, Parameters(namespace, domain), engine).Some?
    ensures FilledIn(search, RenderSearch(search, Parameters(namespace, domain), engine).value, namespace, domain)
  {
    PrintInvertsParse(search);
    RenderedIsFilledIn(Parse(search).value, namespace, domain);
  }

  function RenderAll(searches: seq<string>, parameters: map<string, string>, engine: Engine): Option<seq<string>> {
    if searches == [] then Some([])
    else match RenderAll(searches[..|searches| - 1], parameters, engine)
      case None => None
      case Some(front) =>
        match RenderSearch(searches[|searches| - 1], parameters, engine)
        case None => None
        case Some(last) => Some(front + [last])
  }

  /** What a class with policy None does to the DNS configuration of the pods of a namespace: what
      it writes there, if it gets that far, and the error it ends with. */
  datatype Outcome = Outcome(written: Option<DnsConfig>, error: Option<ConfigError>)

  function ConfigFor(c: Class, namespace: string, engine: Engine): Outcome {
    if c.status.discovered == None then Outcome(None, Some(NilDiscoveredFields))
    else ConfigWith(ConfigOrEmpty(c), c.status.discovered.value, namespace, engine)
  }

  function ConfigOrEmpty(c: Class): DnsConfig {
    if c.spec.config.Some? then c.spec.config.value else DnsConfig(None, None, None)
  }

  function ConfigWith(config: DnsConfig, discovered: Discovered, namespace: string, engine: Engine): Outcome {
    match RenderAll(Elements(config.searches), Parameters(namespace, discovered.clusterDomain), engine)
    case None => Outcome(None, Some(BadSearch))
    case Some(rendered) => WithNameservers(config.(searches := Some(rendered)), discovered.nameservers)
  }

  function WithNameservers(config: DnsConfig, discovered: Slice): Outcome {
    if config.nameservers == None && discovered == None then Outcome(Some(config), Some(NoNameservers))
    else if config.nameservers == None then Outcome(Some(config.(nameservers := discovered)), None)
    else Outcome(Some(config), None)
  }

  function Annotated(annotations: Option<map<string, string>>, key: string, value: string): Option<map<string, string>> {
    Some((if annotations.Some? then annotations.value else map[])[key := value])
  }

  /** The pod when configureDNSForPod returns, and the error it returns. */
  function Configure(pod: PodView, c: Class, engine: Engine): (PodView, Option<ConfigError>) {
    if c.spec.policy != NONE then (Labelled(pod, c), None)
    else
      var outcome := ConfigFor(c, pod.namespace, engine);
      var written := if outcome.written.Some? then pod.(config := outcome.written) else pod;
      if outcome.error.Some? then (written, outcome.error) else (Labelled(written, c), None)
  }

  function Labelled(pod: PodView, c: Class): PodView {
    pod.(policy := c.spec.policy, annotations := Annotated(pod.annotations, DNS_CLASS_NAME, c.name))
  }

  predicate Covers(c: Class, namespace: string) {
    && !Contains(c.spec.disabledNamespaces, namespace)
    && (Elements(c.spec.allowedNamespaces) == [] || Contains(c.spec.allowedNamespaces, namespace))
  }

  /** The first class that covers the namespace and allows the policy. */
  function Select(classes: seq<Class>, namespace: string, policy: string): Option<Class> {
    if classes == [] then None
    else if Covers(classes[0], namespace) && Contains(classes[0].spec.allowedPolicies, policy) then Some(classes[0])
    else Select(classes[1..], namespace, policy)
  }

  /** Every response but Patched admits the pod as it came; Crashed is the recovered panic of a nil
      DiscoveredFields. */
  datatype Response = DecodeFailed | ListFailed | NoClass | NotAvailable(name: string) | ConfigFailed(name: string)
                    | Crashed | Patched(pod: PodView)

  function Respond(classes: Option<seq<Class>>, raw: Option<PodView>, engine: Engine): Response {
    if raw == None then DecodeFailed
    else if classes == None then ListFailed
    else match Select(classes.value, raw.value.namespace, raw.value.policy)
      case None => NoClass
      case Some(c) =>
        if c.status.state != STATE_READY then NotAvailable(c.name)
        else match Configure(raw.value, c, engine)
          case (_, Some(NilDiscoveredFields)) => Crashed
          case (_, Some(_)) => ConfigFailed(c.name)
          case (pod, None) => Patched(pod)
  }

  // ---------- the heap ----------

  class Pod {
    var namespace: string
    var policy: string
    var config: PodDnsConfig?
    var annotations: Option<map<string, string>>
    const rest: string

    constructor (namespace: string, policy: string, config: PodDnsConfig?,
                 annotations: Option<map<string, string>>, rest: string)
      ensures this.namespace == namespace && this.policy == policy && this.config == config
      ensures this.annotations == annotations && this.rest == rest
    {
      this.namespace, this.policy, this.config := namespace, policy, config;
      this.annotations, this.rest := annotations, rest;
    }

    function View(): PodView
      reads this, config, if config == null then {} else config.Arrays()
    {
      PodView(namespace, policy, if config == null then None else Some(config.View()), annotations, rest)
    }
  }

  method NewSlice<T>(s: Option<seq<T>>) returns (a: array?<T>)
    ensures a != null ==> fresh(a)
    ensures ViewSlice(a) == s
  {
    if s == None {
      return null;
    }
    a := new T[|s.value|](i requires 0 <= i < |s.value| => s.value[i]);
    assert a[..] == s.value;
  }

  /** The working copy that the request decodes to. */
  method Decode(raw: PodView) returns (pod: Pod)
    ensures fresh(pod) && (pod.config != null ==> fresh(pod.config))
    ensures pod.View() == raw
  {
    var config: PodDnsConfig? := null;
    if raw.config.Some? {
      var nameservers := NewSlice(raw.config.value.nameservers);
      var searches := NewSlice(raw.config.value.searches);
      var options := NewSlice(raw.config.value.options);
      config := new PodDnsConfig(nameservers, searches, options);
    }
    pod := new Pod(raw.namespace, raw.policy, config, raw.annotations, raw.rest);
  }

  method ConfigureDnsForPod(pod: Pod, c: ClassStruct, engine: Engine) returns (err: Option<ConfigError>)
    modifies pod, c.spec.config
    ensures (pod.View(), err) == old(Configure(pod.View(), c.View(), engine))
  {
    if c.spec.policy == NONE {
      err := WriteConfig(pod, c, engine);
      if err.Some? {
        return;
      }
    }
    LabelPod(pod, c);
    return None;
  }

  /** The end of the source's function, with updateAnnotation. */
  method LabelPod(pod: Pod, c: ClassStruct)
    modifies pod`policy, pod`annotations
    ensures pod.config == old(pod.config)
    ensures pod.View() == old(pod.View()).(policy := c.spec.policy,
                                           annotations := Annotated(old(pod.annotations), DNS_CLASS_NAME, c.name))
  {
    pod.policy := c.spec.policy;
    pod.annotations := Annotated(pod.annotations, DNS_CLASS_NAME, c.name);
  }

  /** The first half of the source's function: it writes the rendered configuration through the
      pointer that the class and, from then on, the pod hold. */
  method WriteConfig(pod: Pod, c: ClassStruct, engine: Engine) returns (err: Option<ConfigError>)
    modifies pod`config, c.spec.config
    ensures var outcome := old(ConfigFor(c.View(), pod.namespace, engine));
            && err == outcome.error
            && (if outcome.written == None then pod.View() == old(pod.View())
                else && pod.View() == old(pod.View()).(config := outcome.written)
                     && pod.config != null && Some(pod.config.View()) == outcome.written
                     && (c.spec.config != null ==> pod.config == c.spec.config))
  {
    if c.status.discovered == null {
      return Some(NilDiscoveredFields);
    }
    var config := c.spec.config;
    if config == null {
      config := new PodDnsConfig(null, null, null);
    }
    err := FillConfig(pod, config, c.status.discovered, engine);
  }

  method FillConfig(pod: Pod, config: PodDnsConfig, discovered: DiscoveredFields, engine: Engine)
    returns (err: Option<ConfigError>)
    modifies pod`config, config
    ensures var outcome := old(ConfigWith(config.View(), discovered.View(), pod.namespace, engine));
            && err == outcome.error
            && (if outcome.written == None then pod.View() == old(pod.View())
                else pod.config == config && Some(config.View()) == outcome.written)
  {
    var rendered := RenderSearches(config, Parameters(pod.namespace, discovered.clusterDomain), engine);
    if rendered == None {
      return Some(BadSearch);
    }
    var searches := NewSlice(rendered);
    config.searches := searches;
    pod.config := config;
    if pod.config.nameservers == null && discovered.nameservers == null {
      return Some(NoNameservers);
    }
    if pod.config.nameservers == null {
      pod.config.nameservers := discovered.nameservers;
    }
    return None;
  }

  method RenderSearches(config: PodDnsConfig, parameters: map<string, string>, engine: Engine)
    returns (rendered: Option<seq<string>>)
    ensures rendered == RenderAll(Elements(config.View().searches), parameters, engine)
  {
    if config.searches == null {
      return Some([]);
    }
    var searches := config.searches[..];
    var out: seq<string> := [];
    for i := 0 to |searches|
      invariant RenderAll(searches[..i], parameters, engine) == Some(out)
    {
      assert searches[..i + 1][..i] == searches[..i];
      var text := RenderSearch(searches[i], parameters, engine);
      if text == None {
        FailureStays(searches, i + 1, parameters, engine);
        return None;
      }
      out := out + [text.value];
    }
    assert searches[..|searches|] == searches;
    return Some(out);
  }

  lemma {:induction false} FailureStays(searches: seq<string>, n: nat, parameters: map<string, string>, engine: Engine)
    requires n <= |searches| && RenderAll(searches[..n], parameters, engine) == None
    ensures RenderAll(searches, parameters, engine) == None
    decreases |searches|
  {
    if n == |searches| {
      assert searches[..n] == searches;
    } else {
      assert searches[..|searches| - 1][..n] == searches[..n];
      FailureStays(searches[..|searches| - 1], n, parameters, engine);
    }
  }

  /** The search loop of getDNSClass over the items of a list. */
  method GetDnsClass(items: seq<ClassStruct>, ghost views: seq<Class>, ghost reach: set<object?>,
                     namespace: string, policy: string) returns (found: bool, c: ClassStruct)
    requires ShowAll(items, views, reach)
    ensures Select(views, namespace, policy) == if found then Some(c.View()) else None
    ensures found ==> c.Footprint() <= reach
  {
    c := ClassStruct("", SpecStruct(null, null, null, "", null), StatusStruct(null, "", null));
    for i := 0 to |items|
      invariant Select(views, namespace, policy) == Select(views[i..], namespace, policy)
    {
      var item := items[i];
      assert Shows(items[i], views[i], reach);
      assert views[i..][0] == views[i] && views[i..][1..] == views[i + 1..];
      if Contains(ViewSlice(item.spec.disabledNamespaces), namespace) {
        continue;
      }
      if !Contains(ViewSlice(item.spec.allowedPolicies), policy) {
        continue;
      }
      var allowed := ViewSlice(item.spec.allowedNamespaces);
      if Elements(allowed) == [] || Contains(allowed, namespace) {
        return true, item;
      }
    }
    return false, c;
  }

  /** One admission request. `stored` is what the client's cache holds; listing copies it. Nothing
      that existed before is changed, and the response is a function of what is stored. */
  method Handle(stored: Option<seq<ClassStruct>>, ghost views: seq<Class>, ghost reach: set<object?>,
                raw: Option<PodView>, engine: Engine) returns (r: Response)
    requires stored.Some? ==> ShowAll(stored.value, views, reach)
    ensures r == Respond(if stored.Some? then Some(views) else None, raw, engine)
  {
    if raw == None {
      return DecodeFailed;
    }
    var pod := Decode(raw.value);
    if stored == None {
      return ListFailed;
    }
    var items, created := CopyList(stored.value, views, reach);
    var found, c := GetDnsClass(items, views, created, pod.namespace, pod.policy);
    if !found {
      return NoClass;
    }
    if c.status.state != STATE_READY {
      return NotAvailable(c.name);
    }
    var err := ConfigureDnsForPod(pod, c, engine);
    if err == Some(NilDiscoveredFields) {
      return Crashed;
    }
    if err.Some? {
      return ConfigFailed(c.name);
    }
    return Patched(pod.View());
  }

  /** Any number of requests: each gets the response it would get alone, since the classes stay as
      they were stored although every request writes through the pointers of its copies. */
  method HandleAll(stored: seq<ClassStruct>, ghost views: seq<Class>, ghost reach: set<object?>,
                   raws: seq<PodView>, engine: Engine) returns (responses: seq<Response>)
    requires ShowAll(stored, views, reach)
    ensures ShowAll(stored, views, reach)
    ensures |responses| == |raws|
    ensures forall i :: 0 <= i < |raws| ==> responses[i] == Respond(Some(views), Some(raws[i]), engine)
  {
    responses := [];
    for k := 0 to |raws|
      invariant ShowAll(stored, views, reach)
      invariant |responses| == k
      invariant forall i :: 0 <= i < k ==> responses[i] == Respond(Some(views), Some(raws[i]), engine)
    {
      var r := Handle(Some(stored), views, reach, Some(raws[k]), engine);
      responses := responses + [r];
    }
  }

  // ---------- properties of admission ----------

  /** The pod after admission: as patched, or as it came. */
  function Admitted(classes: seq<Class>, pod: PodView, engine: Engine): PodView {
    match Respond(Some(classes), Some(pod), engine)
    case Patched(q) => q
    case _ => pod
  }

  /** Whether a class would patch the pods of a namespace; it does not depend on anything else in them. */
  predicate CanPatch(c: Class, namespace: string, engine: Engine) {
    c.status.state == STATE_READY && (c.spec.policy == NONE ==> ConfigFor(c, namespace, engine).error == None)
  }

  /** A patch is made exactly by a selected, available class that can configure the pod, and it
      touches the policy, the configuration and one annotation: the policy and the name are those of
      the class; the configuration is the pod's own, or for policy None has the options of the class
      and its nameservers, or discovered ones if it has none. */
  lemma PatchesOnlyDnsFields(classes: seq<Class>, pod: PodView, engine: Engine)
    ensures var selected := Select(classes, pod.namespace, pod.policy);
            Respond(Some(classes), Some(pod), engine).Patched? <==>
            selected.Some? && CanPatch(selected.value, pod.namespace, engine)
    ensures var q := Admitted(classes, pod, engine);
            && q.namespace == pod.namespace && q.rest == pod.rest
            && forall k :: k != "kubedns-shepherd.io/dns-class-name" ==> Annotation(q, k) == Annotation(pod, k)
    ensures Respond(Some(classes), Some(pod), engine).Patched? ==>
            var c, q := Select(classes, pod.namespace, pod.policy).value, Admitted(classes, pod, engine);
            && q.policy == c.spec.policy && Annotation(q, "kubedns-shepherd.io/dns-class-name") == Some(c.name)
            && (c.spec.policy != NONE ==> q.config == pod.config)
            && (c.spec.policy == NONE ==>
                  && q.config.Some? && c.status.discovered.Some?
                  && q.config.value.options == ConfigOrEmpty(c).options
                  && q.config.value.nameservers
                     == (if ConfigOrEmpty(c).nameservers.Some? then ConfigOrEmpty(c).nameservers
                         else c.status.discovered.value.nameservers)
                  && q.config.value.nameservers.Some?)
  {
  }

  function Annotation(pod: PodView, key: string): Option<string> {
    if pod.annotations.Some? && key in pod.annotations.value then Some(pod.annotations.value[key]) else None
  }

  /** A class applies to a pod of a namespace with a policy: it allows the policy, and the namespace is
      not disabled, even if allowed, and is allowed unless the class names no allowed ones. */
  ghost predicate Applies(c: Class, namespace: string, policy: string) {
    && (exists i :: 0 <= i < |Elements(c.spec.allowedPolicies)| && Elements(c.spec.allowedPolicies)[i] == policy)
    && (forall i :: 0 <= i < |Elements(c.spec.disabledNamespaces)| ==> Elements(c.spec.disabledNamespaces)[i] != namespace)
    && (c.spec.allowedNamespaces in {None, Some([])} ||
        exists i :: 0 <= i < |Elements(c.spec.allowedNamespaces)| && Elements(c.spec.allowedNamespaces)[i] == namespace)
  }

  lemma AppliesIsTested(c: Class, namespace: string, policy: string)
    ensures Applies(c, namespace, policy) <==> Covers(c, namespace) && Contains(c.spec.allowedPolicies, policy)
  {
  }

  /** The selected class is the first in the list that applies. */
  lemma {:induction false} SelectsTheFirst(classes: seq<Class>, namespace: string, policy: string)
    ensures match Select(classes, namespace, policy)
      case None => forall i :: 0 <= i < |classes| ==> !Applies(classes[i], namespace, policy)
      case Some(c) =>
        exists i :: 0 <= i < |classes| && classes[i] == c && Applies(c, namespace, policy)
                    && forall j :: 0 <= j < i ==> !Applies(classes[j], namespace, policy)
  {
    if classes != [] && !Applies(classes[0], namespace, policy) {
      var rest := classes[1..];
      SelectsTheFirst(rest, namespace, policy);
      if Select(rest, namespace, policy).Some? {
        var i :| 0 <= i < |rest| && rest[i] == Select(rest, namespace, policy).value
                 && forall j :: 0 <= j < i ==> !Applies(rest[j], namespace, policy);
        assert classes[i + 1] == rest[i];
        forall j | 0 <= j < i + 1
          ensures !Applies(classes[j], namespace, policy)
        {
          assert j > 0 ==> classes[j] == rest[j - 1];
        }
      } else {
        forall i | 0 <= i < |classes|
          ensures !Applies(classes[i], namespace, policy)
        {
          assert i > 0 ==> classes[i] == rest[i - 1];
        }
      }
    }
  }

  ghost predicate UniqueNames(classes: seq<Class>) {
    forall c, d :: c in classes && d in classes && c.name == d.name ==> c == d
  }

  lemma ConfiguringTwice(pod: PodView, c: Class, engine: Engine)
    requires CanPatch(c, pod.namespace, engine)
    ensures Configure(Configure(pod, c, engine).0, c, engine) == (Configure(pod, c, engine).0, None)
  {
    var q := Configure(pod, c, engine).0;
    var annotations := if pod.annotations.Some? then pod.annotations.value else map[];
    assert annotations[DNS_CLASS_NAME := c.name][DNS_CLASS_NAME := c.name] == annotations[DNS_CLASS_NAME := c.name];
  }

  /** Admission is idempotent exactly when the class that the new policy selects is the same one,
      or none, or one that cannot patch. */
  lemma IdempotentExactlyWhen(classes: seq<Class>, pod: PodView, engine: Engine)
    requires UniqueNames(classes)
    requires Respond(Some(classes), Some(pod), engine).Patched?
    ensures var c := Select(classes, pod.namespace, pod.policy).value;
            var q := Admitted(classes, pod, engine);
            var again := Select(classes, pod.namespace, c.spec.policy);
            Admitted(classes, q, engine) == q <==>
            again == None || again == Some(c) || !CanPatch(again.value, pod.namespace, engine)
  {
    var c := Select(classes, pod.namespace, pod.policy).value;
    var q := Admitted(classes, pod, engine);
    var again := Select(classes, pod.namespace, c.spec.policy);
    PatchesOnlyDnsFields(classes, pod, engine);
    PatchesOnlyDnsFields(classes, q, engine);
    SelectsTheFirst(classes, pod.namespace, pod.policy);
    assert q.policy == c.spec.policy && Annotation(q, DNS_CLASS_NAME) == Some(c.name);
    if again.Some? && CanPatch(again.value, pod.namespace, engine) {
      SelectsTheFirst(classes, pod.namespace, c.spec.policy);
      assert Annotation(Admitted(classes, q, engine), DNS_CLASS_NAME) == Some(again.value.name);
      ConfiguringTwice(pod, c, engine);
    }
  }

  /** In particular when no two classes cover the namespace, whether or not the class allows its
      own policy. */
  lemma OneClassIsIdempotent(classes: seq<Class>, pod: PodView, engine: Engine)
    requires UniqueNames(classes)
    requires forall c, d :: c in classes && d in classes && Covers(c, pod.namespace) && Covers(d, pod.namespace) ==> c == d
    ensures Admitted(classes, Admitted(classes, pod, engine), engine) == Admitted(classes, pod, engine)
  {
    if Respond(Some(classes), Some(pod), engine).Patched? {
      IdempotentExactlyWhen(classes, pod, engine);
      var c := Select(classes, pod.namespace, pod.policy).value;
      SelectsTheFirst(classes, pod.namespace, pod.policy);
      AppliesIsTested(c, pod.namespace, pod.policy);
      if Select(classes, pod.namespace, c.spec.policy).Some? {
        SelectsTheFirst(classes, pod.namespace, c.spec.policy);
        AppliesIsTested(Select(classes, pod.namespace, c.spec.policy).value, pod.namespace, c.spec.policy);
      }
    }
  }

  /** With two classes it need not be: each hands the pod to the other. */
  lemma TwoClassesTakeTurns(engine: Engine)
    ensures var ready := Status(None, STATE_READY, None);
            var a := Class("a", Spec(None, None, Some([CLUSTER_FIRST]), DEFAULT, None), ready);
            var b := Class("b", Spec(None, None, Some([DEFAULT]), CLUSTER_FIRST, None), ready);
            var pod := PodView("ns", CLUSTER_FIRST, None, None, "");
            && Admitted([a, b], pod, engine).policy == DEFAULT
            && Admitted([a, b], Admitted([a, b], pod, engine), engine).policy == CLUSTER_FIRST
  {
    var ready := Status(None, STATE_READY, None);
    var a := Class("a", Spec(None, None, Some([CLUSTER_FIRST]), DEFAULT, None), ready);
    var b := Class("b", Spec(None, None, Some([DEFAULT]), CLUSTER_FIRST, None), ready);
    var pod := PodView("ns", CLUSTER_FIRST, None, None, "");
    assert [a, b][1..] == [b];
    assert Select([a, b], "ns", CLUSTER_FIRST) == Some(a);
    assert Select([a, b], "ns", DEFAULT) == Select([b], "ns", DEFAULT) == Some(b);
  }

  // ---------- why the copies matter ----------

  lemma {:induction false} RenderedAgain(searches: seq<string>, first: map<string, string>, second: map<string, string>,
                                         engine: Engine)
    requires forall s :: s in searches ==> Parse(s).Some?
    requires forall k :: k in first ==> BraceFree(first[k])
    requires RenderAll(searches, first, engine).Some?
    ensures var rendered := RenderAll(searches, first, engine).value;
            RenderAll(rendered, second, engine) == Some(rendered)
  {
    if searches != [] {
      var front, last := searches[..|searches| - 1], searches[|searches| - 1];
      RenderedAgain(front, first, second, engine);
      assert last in searches;
      PrintInvertsParse(last);
      RenderedIsPlain(Parse(last).value, first);
      var rendered := RenderAll(searches, first, engine).value;
      assert rendered[..|rendered| - 1] == RenderAll(front, first, engine).value;
    }
  }

  /** The class with the configuration that was written for the pods of a namespace. */
  function Configured(c: Class, namespace: string, engine: Engine): Class {
    c.(spec := c.spec.(config := ConfigFor(c, namespace, engine).written))
  }

  lemma {:induction false} ConfiguredAgain(c: Class, first: string, second: string, engine: Engine)
    requires forall s :: s in SearchesOf(c.spec) ==> Parse(s).Some?
    requires c.spec.config.Some? && ConfigFor(c, first, engine).error == None
    requires BraceFree(first) && BraceFree(c.status.discovered.value.clusterDomain)
    ensures ConfigFor(Configured(c, first, engine), second, engine) == ConfigFor(c, first, engine)
  {
    var domain := c.status.discovered.value.clusterDomain;
    RenderedAgain(SearchesOf(c.spec), Parameters(first, domain), Parameters(second, domain), engine);
  }

  /** If a class were configured in place for two pods, without a copy for each, the second pod
      would get the search domains of the first pod's namespace, in the very object of the first. */
  method WithoutCopies(p: Pod, q: Pod, c: ClassStruct, engine: Engine)
    requires p != q && c.spec.policy == NONE && c.spec.config != null && c.status.discovered != null
    requires forall s :: s in SearchesOf(c.View().spec) ==> Parse(s).Some?
    requires BraceFree(p.namespace) && BraceFree(c.View().status.discovered.value.clusterDomain)
    requires ConfigFor(c.View(), p.namespace, engine).error == None
    modifies p, q, c.spec.config
    ensures q.config != null && p.config == q.config
    ensures Some(q.config.View()) == old(ConfigFor(c.View(), p.namespace, engine)).written
  {
    ghost var before := c.View();
    ConfiguredAgain(before, p.namespace, q.namespace, engine);
    var first := WriteConfig(p, c, engine);
    assert c.View() == Configured(before, p.namespace, engine);
    var second := WriteConfig(q, c, engine);
  }
}
