/**
 The order of the layers in resolve_policy (services/policy_resolver.py), and its refusal to answer when one of them
 could not be loaded.  The tenant-level policy built from stored settings is given; plugin layers, decryption and the
 final threshold check come after what is modelled here.
*/
module PolicyResolver {
  import opened Outcomes
  import opened PolicyMerge

  /** A department or application: not named in the request, not loadable, not there, or found. */
  datatype Lookup = NotAsked | LoadFailed | Absent | Found(tenant: string, override: Option<Policy>, rateLimit: Option<int>)

  datatype Layer = TenantLayer | DepartmentLayer | ApplicationLayer

  datatype Source = SystemDefault | DepartmentOverride | ApplicationOverride

  /** Found, and not owned by another tenant than the request's. */
  predicate Own(tenantId: string, l: Lookup) { l.Found? && (tenantId == [] || l.tenant == tenantId) }

  /** The override a lookup contributes; an empty one counts as none. */
  function OwnOverride(tenantId: string, l: Lookup): Option<Policy> {
    if Own(tenantId, l) && HasKeys(l.override) then l.override else None
  }

  function OwnLayers(tenantId: string, department: Lookup, application: Lookup): seq<Policy> {
    AsLayer(OwnOverride(tenantId, department)) + AsLayer(OwnOverride(tenantId, application))
  }

  function AsLayer(o: Option<Policy>): seq<Policy> { if o.None? then [] else [o.value] }

  /** resolved["rate_limit"]["per_minute"] = v; None when that section is not a dict. */
  function WithRate(p: Policy, v: int): Option<Policy> {
    if "rate_limit" in p.m && p.m["rate_limit"].Dict?
    then Some(Dict(p.m["rate_limit" := Dict(p.m["rate_limit"].m["per_minute" := Scalar(v)])]))
    else None
  }

  function OwnRate(tenantId: string, l: Lookup): Option<int> { if Own(tenantId, l) then l.rateLimit else None }

  /** The tenant's policy with the department's override over it, and the application's over that. */
  function Combined(stored: Policy, tenantId: string, department: Lookup, application: Lookup): Policy {
    DeepMerge(DeepMerge(stored, OwnOverride(tenantId, department)), OwnOverride(tenantId, application))
  }

  function Limited(p: Policy, rate: Option<int>): Option<Policy> { if rate.None? then Some(p) else WithRate(p, rate.value) }

  /** Whether any part of the policy could not be established. */
  predicate Degraded(stored: Option<Policy>, tenantId: string, department: Lookup, application: Lookup) {
    || stored.None? || department.LoadFailed? || application.LoadFailed?
    || Limited(Combined(stored.value, tenantId, department, application), OwnRate(tenantId, application)).None?
  }

  /** The department or application is found, belongs to the request's tenant, and has something to say. */
  predicate Speaks(tenantId: string, l: Lookup) {
    l.Found? && (tenantId == "" || l.tenant == tenantId) && l.override.Some? && l.override.value.m != map[]
  }

  method ResolvePolicy(stored: Option<Policy>, tenantId: string, department: Lookup, application: Lookup)
    returns (r: Result<(Policy, Source), seq<Layer>>)
    ensures r.Err? <==> Degraded(stored, tenantId, department, application)
    ensures r.Err? ==> r.error != [] && (TenantLayer in r.error <==> stored.None?)
    ensures r.Err? && stored.Some? ==>
              && (DepartmentLayer in r.error <==> department.LoadFailed?)
              && (ApplicationLayer in r.error <==>
                    || application.LoadFailed?
                    || Limited(Combined(stored.value, tenantId, department, application), OwnRate(tenantId, application)).None?)
    ensures r.Ok? ==>
              Some(r.value.0) == Limited(Combined(stored.value, tenantId, department, application), OwnRate(tenantId, application))
    ensures r.Ok? ==>
              r.value.1 == if Speaks(tenantId, application) then ApplicationOverride
                           else if Speaks(tenantId, department) then DepartmentOverride else SystemDefault
  {
    if stored.None? { return Err([TenantLayer]); }
    var resolved, failed, source := stored.value, [], SystemDefault;
    if department.LoadFailed? {
      failed := failed + [DepartmentLayer];
    } else if department.Found? {
      var foreign := tenantId != [] && department.tenant != tenantId;
      if !foreign && HasKeys(department.override) {
        resolved := MergeLoop(resolved, department.override.value);
        source := DepartmentOverride;
      }
    }
    assert resolved == DeepMerge(stored.value, OwnOverride(tenantId, department));
    if application.LoadFailed? {
      failed := failed + [ApplicationLayer];
    } else if application.Found? {
      var foreign := tenantId != [] && application.tenant != tenantId;
      if !foreign {
        if HasKeys(application.override) {
          resolved := MergeLoop(resolved, application.override.value);
          source := ApplicationOverride;
        }
        if application.rateLimit.Some? {
          var limited := WithRate(resolved, application.rateLimit.value);
          if limited.None? { failed := failed + [ApplicationLayer]; } else { resolved := limited.value; }
        }
      }
    }
    if failed != [] { return Err(failed); }
    return Ok((resolved, source));
  }

  predicate HasKeys(o: Option<Policy>) { o.Some? && o.value.m != map[] }

  lemma CombinedIsLayered(stored: Policy, tenantId: string, department: Lookup, application: Lookup)
    ensures Combined(stored, tenantId, department, application) == Layered(stored, OwnLayers(tenantId, department, application))
  {
    LayersOf(stored, OwnOverride(tenantId, department), OwnOverride(tenantId, application));
  }

  lemma LayersOf(base: Policy, d: Option<Policy>, a: Option<Policy>)
    ensures Layered(base, AsLayer(d) + AsLayer(a)) == DeepMerge(DeepMerge(base, d), a)
  {
    assert Layered(base, []) == base;
    if d.Some? {
      assert [d.value][..0] == [];
      assert Layered(base, [d.value]) == Merge(base, d.value);
    }
    if a.Some? {
      assert (AsLayer(d) + [a.value])[..|AsLayer(d)|] == AsLayer(d);
    } else {
      assert AsLayer(d) + [] == AsLayer(d);
    }
  }

  /** What a request gets along every path: the application's own limit, else the last of its own layers that speaks. */
  lemma EffectivePolicy(stored: Policy, tenantId: string, department: Lookup, application: Lookup, path: seq<string>)
    requires !Degraded(Some(stored), tenantId, department, application)
    ensures var policy := Limited(Combined(stored, tenantId, department, application), OwnRate(tenantId, application)).value;
            var rate := OwnRate(tenantId, application);
            Leaf(policy, path) ==
            if rate.Some? && path == ["rate_limit", "per_minute"] then rate
            else if rate.Some? && |path| > 2 && path[0] == "rate_limit" && path[1] == "per_minute" then None
            else Effective(stored, OwnLayers(tenantId, department, application), path)
  {
    var layers := OwnLayers(tenantId, department, application);
    CombinedIsLayered(stored, tenantId, department, application);
    LastLayerWins(stored, layers, path);
    if OwnRate(tenantId, application).Some? {
      RatePath(Layered(stored, layers), OwnRate(tenantId, application).value, path);
    }
  }

  /** One layer over what is below it, along one path. */
  function Above(tenantId: string, l: Lookup, below: Option<int>, path: seq<string>): Option<int> {
    if !Speaks(tenantId, l) then below
    else if Leaf(l.override.value, path).Some? then Leaf(l.override.value, path)
    else if Hides(l.override.value, path) then None
    else below
  }

  /** The application's own limit, then the application, then the department, then what the tenant stored. */
  lemma LayersInOrder(stored: Policy, tenantId: string, department: Lookup, application: Lookup, path: seq<string>)
    requires !Degraded(Some(stored), tenantId, department, application)
    ensures var policy := Limited(Combined(stored, tenantId, department, application), OwnRate(tenantId, application)).value;
            Leaf(policy, path) ==
            if && application.Found? && (tenantId == "" || application.tenant == tenantId) && application.rateLimit.Some?
               && |path| >= 2 && path[0] == "rate_limit" && path[1] == "per_minute"
            then if |path| == 2 then application.rateLimit else None
            else Above(tenantId, application, Above(tenantId, department, Leaf(stored, path), path), path)
  {
    EffectivePolicy(stored, tenantId, department, application, path);
    EffectiveIsAbove(stored, tenantId, department, application, path);
    assert |path| == 2 && path[0] == "rate_limit" && path[1] == "per_minute" ==> path == ["rate_limit", "per_minute"];
  }

  lemma EffectiveIsAbove(stored: Policy, tenantId: string, department: Lookup, application: Lookup, path: seq<string>)
    ensures Effective(stored, OwnLayers(tenantId, department, application), path) ==
            Above(tenantId, application, Above(tenantId, department, Leaf(stored, path), path), path)
  {
    var d, a := AsLayer(OwnOverride(tenantId, department)), AsLayer(OwnOverride(tenantId, application));
    if d != [] { EffectiveNext(stored, [], d[0], path); }
    if a != [] { EffectiveNext(stored, d, a[0], path); }
    assert d == if d == [] then [] else [] + [d[0]];
    assert d + a == if a == [] then d else d + [a[0]];
  }

  lemma EffectiveNext(base: Policy, layers: seq<Policy>, last: Policy, path: seq<string>)
    ensures Effective(base, layers + [last], path) ==
            if Leaf(last, path).Some? then Leaf(last, path)
            else if Hides(last, path) then None
            else Effective(base, layers, path)
  {
    assert (layers + [last])[..|layers|] == layers;
  }

  lemma RatePath(p: Policy, v: int, path: seq<string>)
    requires WithRate(p, v).Some?
    ensures Leaf(WithRate(p, v).value, path) ==
            if path == ["rate_limit", "per_minute"] then Some(v)
            else if |path| > 2 && path[0] == "rate_limit" && path[1] == "per_minute" then None
            else Leaf(p, path)
  {
    if |path| >= 2 && path[0] == "rate_limit" {
      RateSection(p.m["rate_limit"], v, path[1..]);
      assert path == ["rate_limit"] + path[1..];
    }
  }

  lemma RateSection(section: Policy, v: int, rest: seq<string>)
    requires rest != []
    ensures Leaf(Dict(section.m["per_minute" := Scalar(v)]), rest) ==
            if rest == ["per_minute"] then Some(v) else if rest[0] == "per_minute" then None else Leaf(section, rest)
  {
    assert |rest| == 1 ==> rest == [rest[0]];
  }

  /** Another tenant's department or application, taken out of sight. */
  function Disowned(tenantId: string, l: Lookup): Lookup { if l.Found? && tenantId != [] && l.tenant != tenantId then Absent else l }

  /** Another tenant's department or application changes nothing: the request is answered as if it were not there. */
  lemma ForeignOverridesAreIgnored(stored: Option<Policy>, tenantId: string, department: Lookup, application: Lookup)
    ensures Degraded(stored, tenantId, department, application) <==>
            Degraded(stored, tenantId, Disowned(tenantId, department), Disowned(tenantId, application))
    ensures stored.Some? ==>
              Limited(Combined(stored.value, tenantId, department, application), OwnRate(tenantId, application)) ==
              Limited(Combined(stored.value, tenantId, Disowned(tenantId, department), Disowned(tenantId, application)),
                      OwnRate(tenantId, Disowned(tenantId, application)))
  {
  }
}
