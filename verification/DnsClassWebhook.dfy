/** Defaulting and validation of a DNSClass on its way into the store. */
module DnsClassWebhook {
  import opened GoStrings
  import opened SearchTemplates
  import opened DnsClass
  import opened DeepCopy
  import opened DnsClassController

  const VALID_POLICIES := [DEFAULT, CLUSTER_FIRST, CLUSTER_FIRST_WITH_HOST_NET, NONE]
  const DEFAULT_POLICIES := [CLUSTER_FIRST, CLUSTER_FIRST_WITH_HOST_NET, NONE]
  const VALID_KEYS := [POD_NAMESPACE, CLUSTER_DOMAIN]

  function Defaulted(spec: Spec): Spec {
    spec.(allowedPolicies := if spec.allowedPolicies == None then Some(DEFAULT_POLICIES) else spec.allowedPolicies,
          policy := if spec.policy == "" then NONE else spec.policy)
  }

  /** A nil list of policies allows all but "Default" afterwards, an empty policy is "None", and all else
      stays as it was sent. */
  lemma DefaultsAre(spec: Spec)
    ensures var d := Defaulted(spec);
            && d.allowedPolicies.Some?
            && (forall p :: Contains(d.allowedPolicies, p) <==>
                  if spec.allowedPolicies.Some? then Contains(spec.allowedPolicies, p)
                  else p == "ClusterFirst" || p == "ClusterFirstWithHostNet" || p == "None")
            && (d.policy == "None" <==> spec.policy == "" || spec.policy == "None")
            && (spec.policy != "" ==> d.policy == spec.policy)
            && d.allowedNamespaces == spec.allowedNamespaces && d.disabledNamespaces == spec.disabledNamespaces
            && d.config == spec.config
  {
    assert |DEFAULT_POLICIES| == 3;
    assert DEFAULT_POLICIES[0] in DEFAULT_POLICIES && DEFAULT_POLICIES[1] in DEFAULT_POLICIES && DEFAULT_POLICIES[2] in DEFAULT_POLICIES;
  }

  /** Default. The list of default policies is one shared slice, assigned without a copy. */
  method Default(dnsclass: DnsClassObject, defaults: array<string>)
    requires defaults[..] == DEFAULT_POLICIES
    modifies dnsclass`spec
    ensures dnsclass.spec.View() == Defaulted(old(dnsclass.spec.View()))
    ensures dnsclass.spec.config == old(dnsclass.spec.config)
  {
    if dnsclass.spec.allowedPolicies == null {
      dnsclass.spec := dnsclass.spec.(allowedPolicies := defaults);
    }
    if dnsclass.spec.policy == "" {
      dnsclass.spec := dnsclass.spec.(policy := NONE);
    }
  }

  datatype SpecError = BadAllowedPolicy(policy: string) | BadPolicy(policy: string) | ConfigForbidden | BadKey(key: string)

  /** Which errors a spec has. */
  ghost predicate HasError(spec: Spec, e: SpecError) {
    match e
    case BadAllowedPolicy(p) => Contains(spec.allowedPolicies, p) && p !in VALID_POLICIES
    case BadPolicy(p) => p == spec.policy && p !in VALID_POLICIES
    case ConfigForbidden => spec.policy != NONE && spec.config.Some?
    case BadKey(k) => k in TemplateKeys(spec) && k !in VALID_KEYS
  }

  /** Valid policies, no configuration unless the policy is None, and no other placeholders than the
      two supported ones anywhere in a search domain. */
  ghost predicate Accepted(spec: Spec) {
    && (forall p :: Contains(spec.allowedPolicies, p) ==> IsPolicy(p))
    && IsPolicy(spec.policy)
    && (spec.config.Some? ==> spec.policy == "None")
    && forall i, at, n, key ::
         0 <= i < |SearchesOf(spec)| && 0 <= at <= |SearchesOf(spec)[i]| && Matches(SearchesOf(spec)[i][at..], n, key) ==>
           key == "podNamespace" || key == "clusterDomain"
  }

  ghost predicate IsPolicy(p: string) {
    p == "Default" || p == "ClusterFirst" || p == "ClusterFirstWithHostNet" || p == "None"
  }

  /** The list of errors is exactly the errors the spec has, so it is empty exactly for the accepted
      specs. */
  method Validate(spec: Spec) returns (errors: seq<SpecError>)
    ensures forall e :: e in errors <==> HasError(spec, e)
    ensures errors == [] <==> Accepted(spec)
  {
    errors := [];
    var allowed := Elements(spec.allowedPolicies);
    for i := 0 to |allowed|
      invariant forall e :: e in errors <==> e.BadAllowedPolicy? && e.policy in allowed[..i] && e.policy !in VALID_POLICIES
    {
      assert allowed[..i + 1] == allowed[..i] + [allowed[i]];
      if allowed[i] !in VALID_POLICIES {
        errors := errors + [BadAllowedPolicy(allowed[i])];
      }
    }
    assert allowed[..|allowed|] == allowed;
    if spec.policy !in VALID_POLICIES {
      errors := errors + [BadPolicy(spec.policy)];
    }
    if spec.policy != NONE && spec.config.Some? {
      errors := errors + [ConfigForbidden];
    }
    var keys := ExtractTemplateKeysRegex(spec);
    ghost var before := errors;
    for i := 0 to |keys|
      invariant forall e :: e in errors <==> e in before || (e.BadKey? && e.key in keys[..i] && e.key !in VALID_KEYS)
    {
      assert keys[..i + 1] == keys[..i] + [keys[i]];
      if keys[i] !in VALID_KEYS {
        errors := errors + [BadKey(keys[i])];
      }
    }
    assert keys[..|keys|] == keys;
    AcceptedMeansNoErrors(spec);
    assert errors != [] ==> errors[0] in errors;
  }

  lemma AcceptedMeansNoErrors(spec: Spec)
    ensures Accepted(spec) <==> forall e :: !HasError(spec, e)
  {
    var searches := SearchesOf(spec);
    if Accepted(spec) {
      forall e
        ensures !HasError(spec, e)
      {
        if e.BadKey? {
          KeyOccurs(searches, e.key);
        }
      }
    }
    if forall e :: !HasError(spec, e) {
      NoErrorsMeansAccepted(spec);
    }
  }

  lemma NoErrorsMeansAccepted(spec: Spec)
    requires forall e :: !HasError(spec, e)
    ensures Accepted(spec)
  {
    var searches := SearchesOf(spec);
    forall p | Contains(spec.allowedPolicies, p)
      ensures IsPolicy(p)
    {
      assert !HasError(spec, BadAllowedPolicy(p));
    }
    assert !HasError(spec, BadPolicy(spec.policy)) && !HasError(spec, ConfigForbidden);
    forall i, at, n, key | 0 <= i < |searches| && 0 <= at <= |searches[i]| && Matches(searches[i][at..], n, key)
      ensures key == POD_NAMESPACE || key == CLUSTER_DOMAIN
    {
      KeyOccurs(searches, key);
      assert !HasError(spec, BadKey(key));
    }
  }

  /** A key is extracted exactly if the expression matches with it somewhere in a search domain. */
  lemma KeyOccurs(searches: seq<string>, key: string)
    ensures key in FirstOccurrences(AllKeys(searches)) <==>
            exists i, at, n :: 0 <= i < |searches| && 0 <= at <= |searches[i]| && Matches(searches[i][at..], n, key)
  {
    FirstOccurrencesInOrder(AllKeys(searches));
    KeyOfSomeSearch(searches, key);
    forall i | 0 <= i < |searches|
      ensures key in KeysIn(searches[i]) <==> exists at, n :: 0 <= at <= |searches[i]| && Matches(searches[i][at..], n, key)
    {
      KeysAreAllMatches(searches[i], key);
    }
  }

  /** A class is accepted after defaulting exactly if its own policies are valid or absent, it has no
      configuration beside another policy than None, and its placeholders are supported. Defaulting
      it again changes nothing. */
  lemma AcceptedAfterDefaulting(spec: Spec)
    ensures Defaulted(Defaulted(spec)) == Defaulted(spec)
    ensures Accepted(Defaulted(spec)) <==>
            && (forall p :: Contains(spec.allowedPolicies, p) ==> IsPolicy(p))
            && (spec.policy == "" || IsPolicy(spec.policy))
            && (spec.config.Some? ==> spec.policy == "" || spec.policy == "None")
            && forall k :: k in TemplateKeys(spec) ==> k == "podNamespace" || k == "clusterDomain"
  {
    var d := Defaulted(spec);
    assert TemplateKeys(d) == TemplateKeys(spec);
    AcceptedMeansNoErrors(d);
    if Accepted(d) {
      forall k | k in TemplateKeys(spec)
        ensures k == "podNamespace" || k == "clusterDomain"
      {
        assert !HasError(d, BadKey(k));
      }
    } else {
      var e :| HasError(d, e);
    }
  }
}
