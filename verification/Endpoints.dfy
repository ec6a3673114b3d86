/**
 Resolving service endpoints from a model of partitions (aws/endpoints/v3model.go) and enumerating what a model
 holds (aws/endpoints/endpoints.go), for every model.
 */
module Endpoints {
  import opened Prelude

  datatype BoxedBool = Unset | BoxedFalse | BoxedTrue

  datatype Endpoint = Endpoint(
    hostname: string,
    protocols: seq<string>,
    scopeRegion: string,
    scopeService: string,
    dnsSuffix: string,
    signatureVersions: seq<string>,
    sslCommonName: string,
    deprecated: BoxedBool)

  const BLANK := Endpoint("", [], "", "", "", [], "", Unset)

  /** A variant is a bit set of which only the dual-stack bit is in use: true when it is set. */
  type Variant = bool

  datatype Service = Service(
    partitionEndpoint: string,
    isRegionalized: BoxedBool,
    defaults: map<Variant, Endpoint>,
    endpoints: map<(string, Variant), Endpoint>)

  /** The region regular expression is the predicate `matches`; `regions` gives descriptions. */
  datatype Partition = Partition(
    id: string,
    dnsSuffix: string,
    matches: string -> bool,
    defaults: map<Variant, Endpoint>,
    regions: map<string, string>,
    services: map<string, Service>)

  datatype DualStackState = DualStackUnset | DualStackEnabled | DualStackDisabled

  datatype Options = Options(
    disableSSL: bool,
    useDualStack: bool,
    useDualStackEndpoint: DualStackState,
    strictMatching: bool,
    resolveUnknownService: bool,
    s3UsEast1Regional: bool,
    resolvedRegion: string)
  {
    /** `getEndpointVariant`. */
    function VariantFor(service: string): Variant {
      || useDualStackEndpoint == DualStackEnabled
      || (service in {"s3", "s3-control"} && useDualStackEndpoint == DualStackUnset && useDualStack)
    }
  }

  datatype Resolved = Resolved(
    url: string,
    partitionID: string,
    signingRegion: string,
    signingName: string,
    signingNameDerived: bool,
    signingMethod: string)

  /** The lists of what is known come in no order. */
  datatype Error =
    | UnknownService(partition: string, service: string, known: set<string>)
    | UnknownEndpoint(partition: string, service: string, region: string, known: set<string>)
    | InvalidRegion

  // ----------------------------------------------------------------- merging

  function Prefer<T(==)>(current: T, other: T, unset: T): T { if other != unset then other else current }

  /** `mergeIn`: every field that `other` sets wins. */
  function Merge(e: Endpoint, other: Endpoint): Endpoint {
    Endpoint(
      Prefer(e.hostname, other.hostname, ""),
      Prefer(e.protocols, other.protocols, []),
      Prefer(e.scopeRegion, other.scopeRegion, ""),
      Prefer(e.scopeService, other.scopeService, ""),
      Prefer(e.dnsSuffix, other.dnsSuffix, ""),
      Prefer(e.signatureVersions, other.signatureVersions, []),
      Prefer(e.sslCommonName, other.sslCommonName, ""),
      Prefer(e.deprecated, other.deprecated, Unset))
  }

  /** Endpoints under merging are an idempotent monoid. */
  lemma MergeMonoid(a: Endpoint, b: Endpoint, c: Endpoint)
    ensures Merge(Merge(a, b), c) == Merge(a, Merge(b, c))
    ensures Merge(BLANK, a) == a == Merge(a, BLANK)
    ensures Merge(a, a) == a
  {
  }

  function MergeAll(layers: seq<Endpoint>): Endpoint {
    if layers == [] then BLANK else Merge(MergeAll(layers[..|layers| - 1]), layers[|layers| - 1])
  }

  /** The value of a field in the last layer that sets it. */
  function LastSet<T(==)>(layers: seq<Endpoint>, field: Endpoint -> T, unset: T): T {
    if layers == [] then unset
    else
      var last := field(layers[|layers| - 1]);
      if last != unset then last else LastSet(layers[..|layers| - 1], field, unset)
  }

  /** Every merged field is that of the most specific layer that sets it, independently of the other fields. */
  lemma {:induction false} MostSpecificLayerWins(layers: seq<Endpoint>)
    ensures var merged := MergeAll(layers);
            && merged.hostname == LastSet(layers, (e: Endpoint) => e.hostname, "")
            && merged.protocols == LastSet(layers, (e: Endpoint) => e.protocols, [])
            && merged.scopeRegion == LastSet(layers, (e: Endpoint) => e.scopeRegion, "")
            && merged.scopeService == LastSet(layers, (e: Endpoint) => e.scopeService, "")
            && merged.dnsSuffix == LastSet(layers, (e: Endpoint) => e.dnsSuffix, "")
            && merged.signatureVersions == LastSet(layers, (e: Endpoint) => e.signatureVersions, [])
            && merged.sslCommonName == LastSet(layers, (e: Endpoint) => e.sslCommonName, "")
            && merged.deprecated == LastSet(layers, (e: Endpoint) => e.deprecated, Unset)
    decreases |layers|
  {
    if layers != [] {
      MostSpecificLayerWins(layers[..|layers| - 1]);
    }
  }

  /** The loop of `resolve`: the defaults, then the endpoint, merged into a blank one. */
  method MergeLayers(defs: seq<Endpoint>, e: Endpoint) returns (merged: Endpoint)
    ensures merged == MergeAll(defs + [e])
  {
    merged := BLANK;
    for i := 0 to |defs|
      invariant merged == MergeAll(defs[..i])
    {
      assert defs[..i + 1][..i] == defs[..i];
      merged := Merge(merged, defs[i]);
    }
    merged := Merge(merged, e);
    assert (defs + [e])[..|defs|] == defs == defs[..|defs|];
  }

  // -------------------------------------------------------- decoding variants

  /** An endpoint with its tagged variants, as decoded from JSON. */
  datatype Decoded = Decoded(base: Endpoint, variants: seq<(Endpoint, seq<string>)>)

  const DUAL_STACK := "dualstack"

  /** The lower-case letter that a character folds to; two letters beyond ASCII fold into it. */
  function Fold(c: char): char {
    if 'A' <= c <= 'Z' then c - 'A' + 'a'
    else if c == '\U{017F}' then 's'
    else if c == '\U{212A}' then 'k'
    else c
  }

  /** `strings.EqualFold` with a lower-case text. */
  predicate EqualFold(lower: string, t: string) {
    |t| == |lower| && forall i | 0 <= i < |t| :: Fold(t[i]) == lower[i]
  }

  /** The spellings of the tag: each letter in either case, and the two letters beyond ASCII that fold into it. */
  lemma TagSpellings(t: string)
    ensures EqualFold(DUAL_STACK, t) <==>
              && |t| == 9
              && forall i | 0 <= i < 9 ::
                   || t[i] == "dualstack"[i] || t[i] == "DUALSTACK"[i]
                   || (i == 4 && t[i] == '\U{017F}') || (i == 8 && t[i] == '\U{212A}')
  {
  }

  /** Tags that are all known, in whatever case, and not none at all. */
  predicate KnownTags(tags: seq<string>) { tags != [] && forall t | t in tags :: EqualFold(DUAL_STACK, t) }

  /** `parseVariantTags`. */
  method ParseVariantTags(tags: seq<string>) returns (ev: Variant, unknown: bool)
    ensures unknown <==> !KnownTags(tags)
    ensures !unknown ==> ev == true
  {
    ev, unknown := false, false;
    if |tags| == 0 {
      unknown := true;
      return;
    }
    for i := 0 to |tags|
      invariant unknown <==> exists j | 0 <= j < i :: !EqualFold(DUAL_STACK, tags[j])
      invariant ev <==> exists j | 0 <= j < i :: EqualFold(DUAL_STACK, tags[j])
    {
      if EqualFold(DUAL_STACK, tags[i]) {
        ev := true;
      } else {
        unknown := true;
      }
    }
    if unknown {
      ghost var j :| 0 <= j < |tags| && !EqualFold(DUAL_STACK, tags[j]);
      assert tags[j] in tags;
    } else {
      assert EqualFold(DUAL_STACK, tags[0]);
    }
  }

  /** The base without what a variant never inherits. */
  function Inherited(base: Endpoint): Endpoint { base.(hostname := "", dnsSuffix := "") }

  /** The last variant with known tags among the first `n`. */
  function LastKnown(d: Decoded, n: nat): Option<Endpoint>
    requires n <= |d.variants|
  {
    if n == 0 then None
    else if KnownTags(d.variants[n - 1].1) then Some(d.variants[n - 1].0)
    else LastKnown(d, n - 1)
  }

  /** A variant's names are its own; in every other field it falls back on its base. */
  predicate IsVariantOf(decoded: Endpoint, base: Endpoint, variant: Endpoint) {
    && decoded.hostname == variant.hostname && decoded.dnsSuffix == variant.dnsSuffix
    && decoded.protocols == (if variant.protocols == [] then base.protocols else variant.protocols)
    && decoded.scopeRegion == (if variant.scopeRegion == "" then base.scopeRegion else variant.scopeRegion)
    && decoded.scopeService == (if variant.scopeService == "" then base.scopeService else variant.scopeService)
    && decoded.signatureVersions
       == (if variant.signatureVersions == [] then base.signatureVersions else variant.signatureVersions)
    && decoded.sslCommonName == (if variant.sslCommonName == "" then base.sslCommonName else variant.sslCommonName)
    && decoded.deprecated == (if variant.deprecated == Unset then base.deprecated else variant.deprecated)
  }

  lemma {:induction false} LastKnownIsVariant(d: Decoded, n: nat)
    requires n <= |d.variants| && LastKnown(d, n).Some?
    ensures exists i | 0 <= i < n :: d.variants[i].0 == LastKnown(d, n).value && KnownTags(d.variants[i].1)
  {
    if !KnownTags(d.variants[n - 1].1) {
      LastKnownIsVariant(d, n - 1);
    }
  }

  lemma MergedIsVariant(base: Endpoint, variant: Endpoint)
    ensures IsVariantOf(MergeAll([Inherited(base), variant]), base, variant)
  {
    var inherited := Inherited(base);
    assert [inherited, variant][..1] == [inherited] && [inherited][..0] == [];
    assert MergeAll([inherited]) == Merge(MergeAll([]), inherited);
    assert MergeAll([inherited, variant]) == Merge(MergeAll([inherited]), variant);
  }

  /**
   The decoding of defaults and endpoints: the base as it is, and under the variant the last tagged one, which
   inherits every field of the base that it does not set, but never its hostname or DNS suffix.
   */
  method DecodeVariants(d: Decoded) returns (m: map<Variant, Endpoint>)
    ensures false in m && m[false] == d.base
    ensures true in m <==> exists i | 0 <= i < |d.variants| :: KnownTags(d.variants[i].1)
    ensures match LastKnown(d, |d.variants|)
            case None => true !in m
            case Some(v) => true in m && m[true] == MergeAll([Inherited(d.base), v])
    ensures true in m ==>
              exists i | 0 <= i < |d.variants| ::
                KnownTags(d.variants[i].1) && IsVariantOf(m[true], d.base, d.variants[i].0)
  {
    m := map[false := d.base];
    var e := Inherited(d.base);
    for i := 0 to |d.variants|
      invariant false in m && m[false] == d.base
      invariant true in m <==> exists j | 0 <= j < i :: KnownTags(d.variants[j].1)
      invariant match LastKnown(d, i)
                case None => true !in m
                case Some(v) => true in m && m[true] == MergeAll([e, v])
    {
      var (variant, tags) := d.variants[i];
      var ev, unknown := ParseVariantTags(tags);
      if unknown {
        continue;
      }
      var ve := Merge(BLANK, e);
      ve := Merge(ve, variant);
      m := m[ev := ve];
      assert [e, variant][..1] == [e] && [e][..0] == [];
      assert MergeAll([e]) == Merge(MergeAll([]), e);
    }
    if true in m {
      LastKnownIsVariant(d, |d.variants|);
      MergedIsVariant(d.base, LastKnown(d, |d.variants|).value);
    }
  }

  // ---------------------------------------------------------------- resolving

  predicate Alnum(c: char) { 'a' <= c <= 'z' || 'A' <= c <= 'Z' || '0' <= c <= '9' }

  /** `validateInputRegion`: letters and digits, with hyphens inside. */
  predicate ValidRegion(region: string) {
    && region != "" && Alnum(region[0]) && Alnum(region[|region| - 1])
    && forall c | c in region :: Alnum(c) || c == '-'
  }

  /** The format of a region: a letter or a digit, or two of them with more of them and hyphens between. */
  lemma RegionFormat(region: string)
    ensures forall c :: ValidRegion([c]) <==> 'a' <= c <= 'z' || 'A' <= c <= 'Z' || '0' <= c <= '9'
    ensures region == "" ==> !ValidRegion(region)
    ensures |region| >= 2 ==>
              (ValidRegion(region) <==>
                 && ValidRegion([region[0]]) && ValidRegion([region[|region| - 1]])
                 && forall i | 1 <= i < |region| - 1 :: region[i] == '-' || ValidRegion([region[i]]))
  {
    assert forall c :: ValidRegion([c]) <==> Alnum(c);
    if |region| >= 2 {
      assert forall c | c in region :: exists i :: 0 <= i < |region| && region[i] == c;
      assert forall i | 0 <= i < |region| :: region[i] in region;
    }
  }

  /** `getByPriority`. */
  function ByPriority(s: seq<string>, p: seq<string>, def: string): (r: string)
    ensures s == [] ==> r == def
    ensures s != [] ==> r in s
    ensures forall i | 0 <= i < |p| && p[i] in s && (forall j | 0 <= j < i :: p[j] !in s) :: r == p[i]
    decreases |p|
  {
    if s == [] then def
    else if p == [] then s[0]
    else if p[0] in s then p[0]
    else
      assert forall i | 1 <= i < |p| :: p[i] == p[1..][i - 1];
      ByPriority(s, p[1..], def)
  }

  /** `strings.Replace(s, old, new, 1)`. */
  function ReplaceFirst(s: string, t: string, with: string): string
    requires t != ""
  {
    if t <= s then with + s[|t|..]
    else if s == "" then ""
    else [s[0]] + ReplaceFirst(s[1..], t, with)
  }

  function Host(hostname: string, service: string, region: string, dnsSuffix: string): string {
    var host := ReplaceFirst(ReplaceFirst(hostname, "{service}", service), "{region}", region);
    ReplaceFirst(host, "{dnsSuffix}", dnsSuffix)
  }

  function ResolveMerged(merged: Endpoint, service: string, partitionID: string, region: string,
                         dnsSuffix: string, opts: Options): Result<Resolved, Error>
  {
    if !ValidRegion(region) then Err(InvalidRegion)
    else
      var suffix := if merged.dnsSuffix != "" then merged.dnsSuffix else dnsSuffix;
      var scheme := if opts.disableSSL then "http" else ByPriority(merged.protocols, ["https", "http"], "https");
      Ok(Resolved(
           scheme + "://" + Host(merged.hostname, service, region, suffix),
           partitionID,
           if merged.scopeRegion != "" then merged.scopeRegion else region,
           if merged.scopeService != "" then merged.scopeService else service,
           merged.scopeService == "",
           ByPriority(merged.signatureVersions, ["v4", "v2"], "v4")))
  }

  const LEGACY_EMPTY_REGION: set<string> :=
    {"budgets", "ce", "chime", "cloudfront", "ec2metadata", "iam", "importexport", "organizations", "route53",
     "sts", "support", "waf"}

  const GLOBAL := "aws-global"

  /** The legacy S3 rewrite of us-east-1 to the global pseudo-region. */
  predicate RewritesToGlobal(service: string, region: string, opts: Options) {
    && service == "s3" && region == "us-east-1"
    && !opts.s3UsEast1Regional && !opts.VariantFor(service)
  }

  function EndpointOr(es: map<(string, Variant), Endpoint>, region: string, v: Variant): Endpoint {
    if (region, v) in es then es[(region, v)] else BLANK
  }

  /** `endpointForRegion`: the endpoint, and whether there is one. */
  function EndpointForRegion(s: Service, region: string, v: Variant): (Endpoint, bool) {
    if (region, v) in s.endpoints then (s.endpoints[(region, v)], true)
    else if s.isRegionalized == BoxedFalse then
      (EndpointOr(s.endpoints, s.partitionEndpoint, v), region == s.partitionEndpoint)
    else (BLANK, false)
  }

  const NO_SERVICE := Service("", Unset, map[], map[])

  function ServiceOf(p: Partition, service: string): Service {
    if service in p.services then p.services[service] else NO_SERVICE
  }

  function DefaultOf(defaults: map<Variant, Endpoint>, v: Variant): Endpoint {
    if v in defaults then defaults[v] else BLANK
  }

  /** The service's defaults for a variant, or its standard ones without hostname and DNS suffix. */
  function ServiceDefaults(s: Service, v: Variant): Endpoint {
    if v && v !in s.defaults then Inherited(DefaultOf(s.defaults, false)) else DefaultOf(s.defaults, v)
  }

  /** The region that is looked up, after the two legacy substitutions. */
  function LookupRegion(s: Service, service: string, region: string, opts: Options): string {
    var region := if region == "" && service in LEGACY_EMPTY_REGION && s.partitionEndpoint != ""
                  then s.partitionEndpoint else region;
    if RewritesToGlobal(service, region, opts) then GLOBAL else region
  }

  function RequestedRegion(region: string, opts: Options): string {
    if opts.resolvedRegion != "" then opts.resolvedRegion else region
  }

  /** `endpointList`: the identifiers listed for a variant. */
  function ListedFor(s: Service, v: Variant): set<string> { set key | key in s.endpoints && key.1 == v :: key.0 }

  /** The layers of a resolution, the least specific first. */
  function Layers(p: Partition, s: Service, region: string, v: Variant): seq<Endpoint> {
    [DefaultOf(p.defaults, v), ServiceDefaults(s, v), EndpointForRegion(s, region, v).0]
  }

  /** `partition.EndpointFor`. */
  function EndpointFor(p: Partition, service: string, region: string, opts: Options): Result<Resolved, Error> {
    var s := ServiceOf(p, service);
    if service == "" || !(service in p.services || opts.resolveUnknownService) then
      Err(UnknownService(p.id, service, p.services.Keys))
    else
      var region := LookupRegion(s, service, RequestedRegion(region, opts), opts);
      var v := opts.VariantFor(service);
      var suffix :=
        if ServiceDefaults(s, v).dnsSuffix != "" then ServiceDefaults(s, v).dnsSuffix
        else if !v then p.dnsSuffix else "";
      var noDefaults := v !in s.defaults && v !in p.defaults;
      if region == "" || (!EndpointForRegion(s, region, v).1 && (opts.strictMatching || noDefaults))
      then Err(UnknownEndpoint(p.id, service, region, ListedFor(s, v)))
      else ResolveMerged(MergeAll(Layers(p, s, region, v)), service, p.id, region, suffix, opts)
  }

  /** `canResolveEndpoint`. */
  predicate CanResolve(p: Partition, service: string, region: string, opts: Options) {
    || (service in p.services && (region, opts.VariantFor(service)) in p.services[service].endpoints)
    || (!opts.strictMatching && p.matches(region))
  }

  /** The first partition that can resolve; `strict` decides about falling back to the first of all. */
  function Chosen(ps: seq<Partition>, service: string, region: string, opts: Options): Option<Partition> {
    if ps == [] then None
    else if CanResolve(ps[0], service, region, opts) then Some(ps[0])
    else Chosen(ps[1..], service, region, opts)
  }

  function EndpointForAny(ps: seq<Partition>, service: string, region: string, opts: Options): Result<Resolved, Error> {
    var chosen := Chosen(ps, service, RequestedRegion(region, opts), opts);
    if chosen.Some? then EndpointFor(chosen.value, service, RequestedRegion(region, opts), opts)
    else if !opts.strictMatching && ps != [] then EndpointFor(ps[0], service, RequestedRegion(region, opts), opts)
    else Err(UnknownEndpoint("all partitions", service, RequestedRegion(region, opts), {}))
  }

  lemma {:induction false} ChosenIsFirst(ps: seq<Partition>, service: string, region: string, opts: Options, i: nat)
    requires i < |ps| && CanResolve(ps[i], service, region, opts)
    requires forall j | 0 <= j < i :: !CanResolve(ps[j], service, region, opts)
    ensures Chosen(ps, service, region, opts) == Some(ps[i])
  {
    if i > 0 {
      ChosenIsFirst(ps[1..], service, region, opts, i - 1);
    }
  }

  lemma {:induction false} ChosenOrNone(ps: seq<Partition>, service: string, region: string, opts: Options)
    requires forall p | p in ps :: !CanResolve(p, service, region, opts)
    ensures Chosen(ps, service, region, opts) == None
  {
    if ps != [] {
      assert ps[0] in ps;
      assert forall p | p in ps[1..] :: p in ps;
      ChosenOrNone(ps[1..], service, region, opts);
    }
  }

  /** `partitions.EndpointFor`, with its loop. */
  method ResolveInPartitions(ps: seq<Partition>, service: string, region: string, opts: Options)
    returns (r: Result<Resolved, Error>)
    ensures r == EndpointForAny(ps, service, region, opts)
  {
    var region := RequestedRegion(region, opts);
    for i := 0 to |ps|
      invariant forall j | 0 <= j < i :: !CanResolve(ps[j], service, region, opts)
    {
      if !CanResolve(ps[i], service, region, opts) {
        continue;
      }
      ChosenIsFirst(ps, service, region, opts, i);
      return EndpointFor(ps[i], service, region, opts);
    }
    ChosenOrNone(ps, service, region, opts);
    if !opts.strictMatching && |ps| > 0 {
      return EndpointFor(ps[0], service, region, opts);
    }
    return Err(UnknownEndpoint("all partitions", service, region, {}));
  }

  lemma {:induction false} ChosenAppend(ps: seq<Partition>, more: seq<Partition>, service: string, region: string,
                                        opts: Options)
    requires Chosen(ps, service, region, opts).Some?
    ensures Chosen(ps + more, service, region, opts) == Chosen(ps, service, region, opts)
  {
    if !CanResolve(ps[0], service, region, opts) {
      ChosenAppend(ps[1..], more, service, region, opts);
      assert (ps + more)[1..] == ps[1..] + more;
    }
  }

  /** Once some partition can resolve a request, appending partitions never changes the answer. */
  lemma AppendingPartitionsChangesNothing(ps: seq<Partition>, more: seq<Partition>, service: string, region: string,
                                          opts: Options)
    requires exists p | p in ps :: CanResolve(p, service, RequestedRegion(region, opts), opts)
    ensures EndpointForAny(ps + more, service, region, opts) == EndpointForAny(ps, service, region, opts)
  {
    var region' := RequestedRegion(region, opts);
    var i :| 0 <= i < |ps| && CanResolve(ps[i], service, region', opts);
    FirstResolver(ps, service, region', opts, i);
    hide EndpointFor;
    ChosenAppend(ps, more, service, region', opts);
  }

  lemma {:induction false} FirstResolver(ps: seq<Partition>, service: string, region: string, opts: Options, i: nat)
    requires i < |ps| && CanResolve(ps[i], service, region, opts)
    ensures Chosen(ps, service, region, opts).Some?
  {
    if i > 0 {
      FirstResolver(ps[1..], service, region, opts, i - 1);
    }
  }

  /** If no layer's value is found for a field, none sets it. */
  lemma {:induction false} NoneSets<T>(layers: seq<Endpoint>, field: Endpoint -> T, unset: T, i: nat)
    requires LastSet(layers, field, unset) == unset && i < |layers|
    ensures field(layers[i]) == unset
    decreases |layers|
  {
    if i < |layers| - 1 {
      NoneSets(layers[..|layers| - 1], field, unset, i);
    }
  }

  /** The DNS suffix of the most specific layer that has one; a standard endpoint falls back on the partition's. */
  function SuffixOf(p: Partition, layers: seq<Endpoint>, v: Variant): string {
    var suffix := LastSet(layers, (e: Endpoint) => e.dnsSuffix, "");
    if suffix != "" then suffix else if !v then p.dnsSuffix else ""
  }

  lemma SuffixFallsBack(p: Partition, s: Service, region: string, v: Variant)
    ensures var layers := Layers(p, s, region, v);
            var fallback := if ServiceDefaults(s, v).dnsSuffix != "" then ServiceDefaults(s, v).dnsSuffix
                            else if !v then p.dnsSuffix else "";
            SuffixOf(p, layers, v)
            == if MergeAll(layers).dnsSuffix != "" then MergeAll(layers).dnsSuffix else fallback
  {
    var layers := Layers(p, s, region, v);
    assert layers[1] == ServiceDefaults(s, v);
    MostSpecificLayerWins(layers);
    if MergeAll(layers).dnsSuffix == "" {
      NoneSets(layers, (e: Endpoint) => e.dnsSuffix, "", 1);
    }
  }

  /** The layers of a request's resolution. */
  function LayersFor(p: Partition, service: string, region: string, opts: Options): seq<Endpoint> {
    Layers(p, ServiceOf(p, service), region, opts.VariantFor(service))
  }

  /** The URL made of the most specific host name, protocols and DNS suffix. */
  function LayeredURL(p: Partition, layers: seq<Endpoint>, service: string, region: string, opts: Options): string {
    var protocols := LastSet(layers, (e: Endpoint) => e.protocols, []);
    var scheme := if opts.disableSSL then "http" else ByPriority(protocols, ["https", "http"], "https");
    var hostname := LastSet(layers, (e: Endpoint) => e.hostname, "");
    scheme + "://" + Host(hostname, service, region, SuffixOf(p, layers, opts.VariantFor(service)))
  }

  /** What is resolved comes from the most specific of endpoint, service default and partition default that says. */
  lemma ResolvedFields(p: Partition, service: string, region: string, opts: Options)
    requires EndpointFor(p, service, region, opts).Ok?
    ensures var r := EndpointFor(p, service, region, opts).value;
            var lookup := LookupRegion(ServiceOf(p, service), service, RequestedRegion(region, opts), opts);
            var layers := LayersFor(p, service, lookup, opts);
            var scope := LastSet(layers, (e: Endpoint) => e.scopeRegion, "");
            var name := LastSet(layers, (e: Endpoint) => e.scopeService, "");
            && r.url == LayeredURL(p, layers, service, lookup, opts)
            && r.partitionID == p.id
            && r.signingRegion == (if scope != "" then scope else lookup)
            && r.signingName == (if name != "" then name else service)
            && r.signingNameDerived == (name == "")
            && var signers := LastSet(layers, (e: Endpoint) => e.signatureVersions, []);
               r.signingMethod == ByPriority(signers, ["v4", "v2"], "v4")
  {
    var s := ServiceOf(p, service);
    var lookup := LookupRegion(s, service, RequestedRegion(region, opts), opts);
    MostSpecificLayerWins(LayersFor(p, service, lookup, opts));
    SuffixFallsBack(p, s, lookup, opts.VariantFor(service));
    hide MergeAll, LastSet, LookupRegion, ByPriority, ServiceDefaults, Host, SuffixOf, Layers;
  }

  // --------------------------------------------------------------- host names

  /** A placeholder, which begins with the only kind of brace that opens one. */
  predicate IsPlaceholder(t: string) { t != "" && t[0] == '{' }

  /** What stands before the first brace is kept. */
  lemma {:induction false} ReplaceAfter(a: string, rest: string, t: string, with: string)
    requires '{' !in a && IsPlaceholder(t)
    ensures ReplaceFirst(a + rest, t, with) == a + ReplaceFirst(rest, t, with)
  {
    if a == "" {
      assert a + rest == rest && a + ReplaceFirst(rest, t, with) == ReplaceFirst(rest, t, with);
    } else {
      var s := a + rest;
      assert s[0] == a[0] != t[0] && s[1..] == a[1..] + rest;
      ReplaceAfter(a[1..], rest, t, with);
      assert [a[0]] + (a[1..] + ReplaceFirst(rest, t, with)) == a + ReplaceFirst(rest, t, with);
    }
  }

  /** The first occurrence of a placeholder, after text without braces, is replaced. */
  lemma ReplacePlaceholder(a: string, rest: string, t: string, with: string)
    requires '{' !in a && IsPlaceholder(t)
    ensures ReplaceFirst(a + t + rest, t, with) == a + with + rest
  {
    assert a + t + rest == a + (t + rest);
    ReplaceAfter(a, t + rest, t, with);
    assert (t + rest)[|t|..] == rest;
    assert a + (with + rest) == a + with + rest;
  }

  lemma ReplaceNothing(a: string, t: string, with: string)
    requires '{' !in a && IsPlaceholder(t)
    ensures ReplaceFirst(a, t, with) == a
  {
    ReplaceAfter(a, "", t, with);
    assert a + "" == a;
  }

  /** A template with the three placeholders in their usual order. */
  function Template(a: string, b: string, c: string, d: string): string {
    a + "{service}" + b + "{region}" + c + "{dnsSuffix}" + d
  }

  /** The three placeholders in their usual order, with any text without braces between them. */
  lemma HostOfTemplate(a: string, b: string, c: string, d: string, service: string, region: string, suffix: string)
    requires '{' !in a && '{' !in b && '{' !in c && '{' !in service && '{' !in region
    ensures Host(Template(a, b, c, d), service, region, suffix)
         == a + service + b + region + c + suffix + d
  {
    hide ReplaceFirst;
    var rest := b + "{region}" + c + "{dnsSuffix}" + d;
    assert a + "{service}" + b + "{region}" + c + "{dnsSuffix}" + d == a + "{service}" + rest;
    ReplacePlaceholder(a, rest, "{service}", service);
    var head := a + service + b;
    assert a + service + rest == head + "{region}" + (c + "{dnsSuffix}" + d);
    ReplacePlaceholder(head, c + "{dnsSuffix}" + d, "{region}", region);
    assert head + region + (c + "{dnsSuffix}" + d) == (head + region + c) + "{dnsSuffix}" + d;
    ReplacePlaceholder(head + region + c, d, "{dnsSuffix}", suffix);
  }

  /** A host name without placeholders is left alone. */
  lemma HostWithoutPlaceholders(hostname: string, service: string, region: string, suffix: string)
    requires '{' !in hostname
    ensures Host(hostname, service, region, suffix) == hostname
  {
    ReplaceNothing(hostname, "{service}", service);
    ReplaceNothing(hostname, "{region}", region);
    ReplaceNothing(hostname, "{dnsSuffix}", suffix);
  }

  /** The scheme for these protocols: HTTPS where it is offered or nothing is, unless SSL is disabled. */
  function SchemeOf(protocols: seq<string>, disableSSL: bool): string {
    if disableSSL then "http"
    else if protocols == [] || "https" in protocols then "https"
    else if "http" in protocols then "http" else protocols[0]
  }

  /** The host that a template means: service, region and suffix in their places, or itself without placeholders. */
  ghost predicate IsHost(host: string, template: string, service: string, region: string, suffix: string) {
    && (forall a, b, c, d | '{' !in a && '{' !in b && '{' !in c && template == Template(a, b, c, d) ::
          host == a + service + b + region + c + suffix + d)
    && ('{' !in template ==> host == template)
  }

  lemma HostMeans(template: string, service: string, region: string, suffix: string)
    requires '{' !in service && '{' !in region
    ensures IsHost(Host(template, service, region, suffix), template, service, region, suffix)
  {
    hide Host, Template;
    forall a, b, c, d | '{' !in a && '{' !in b && '{' !in c && template == Template(a, b, c, d)
      ensures Host(template, service, region, suffix) == a + service + b + region + c + suffix + d
    {
      HostOfTemplate(a, b, c, d, service, region, suffix);
    }
    if '{' !in template {
      HostWithoutPlaceholders(template, service, region, suffix);
    }
  }

  lemma SchemeMeans(protocols: seq<string>)
    ensures ByPriority(protocols, ["https", "http"], "https") == SchemeOf(protocols, false)
  {
    assert ["https", "http"][1..] == ["http"] && ["http"][1..] == [];
  }

  lemma ResolvedRegionIsValid(p: Partition, service: string, region: string, opts: Options)
    requires EndpointFor(p, service, region, opts).Ok?
    ensures ValidRegion(LookupRegion(ServiceOf(p, service), service, RequestedRegion(region, opts), opts))
  {
    hide ValidRegion, LookupRegion, MergeAll, Layers, ServiceDefaults, Host;
  }

  /**
   The URL of a resolved endpoint is made of the host that the most specific host name means, with the scheme of the
   most specific protocols.
   */
  lemma ResolvedUrl(p: Partition, service: string, region: string, opts: Options)
    returns (host: string, lookup: string, layers: seq<Endpoint>)
    requires EndpointFor(p, service, region, opts).Ok? && '{' !in service
    ensures lookup == LookupRegion(ServiceOf(p, service), service, RequestedRegion(region, opts), opts)
    ensures layers == LayersFor(p, service, lookup, opts)
    ensures EndpointFor(p, service, region, opts).value.url
         == SchemeOf(LastSet(layers, (e: Endpoint) => e.protocols, []), opts.disableSSL) + "://" + host
    ensures IsHost(host, LastSet(layers, (e: Endpoint) => e.hostname, ""), service, lookup,
                   SuffixOf(p, layers, opts.VariantFor(service)))
  {
    hide EndpointFor, Host, LastSet, SuffixOf, LookupRegion, ByPriority, LayersFor, IsHost;
    lookup := LookupRegion(ServiceOf(p, service), service, RequestedRegion(region, opts), opts);
    layers := LayersFor(p, service, lookup, opts);
    ResolvedFields(p, service, region, opts);
    ResolvedRegionIsValid(p, service, region, opts);
    SchemeMeans(LastSet(layers, (e: Endpoint) => e.protocols, []));
    var hostname := LastSet(layers, (e: Endpoint) => e.hostname, "");
    var suffix := SuffixOf(p, layers, opts.VariantFor(service));
    assert '{' !in lookup;
    host := Host(hostname, service, lookup, suffix);
    HostMeans(hostname, service, lookup, suffix);
  }

  // ---------------------------------------------------------------- regions

  /** Which requests ask for dual-stack endpoints: the setting says so, or it is open and S3 is asked to. */
  predicate AsksDualStack(service: string, opts: Options) {
    match opts.useDualStackEndpoint
    case DualStackEnabled => true
    case DualStackDisabled => false
    case DualStackUnset => opts.useDualStack && (service == "s3" || service == "s3-control")
  }

  /**
   Which region is resolved: an option that was resolved before takes the place of the one asked for. Without any, the
   listed services resolve the endpoint of their partition and all others none. S3 in us-east-1 is the global
   pseudo-region unless it is asked to be regional or dual-stack. No other region is replaced.
   */
  lemma WhichRegionIsResolved(p: Partition, service: string, region: string, opts: Options)
    ensures opts.resolvedRegion != "" ==>
              EndpointFor(p, service, region, opts) == EndpointFor(p, service, opts.resolvedRegion, opts)
    ensures opts.resolvedRegion == "" && service in p.services ==>
              var partition := p.services[service].partitionEndpoint;
              if partition != "" && service in
                   {"budgets", "ce", "chime", "cloudfront", "ec2metadata", "iam", "importexport", "organizations",
                    "route53", "sts", "support", "waf"}
              then EndpointFor(p, service, "", opts) == EndpointFor(p, service, partition, opts)
              else EndpointFor(p, service, "", opts).Err?
    ensures opts.resolvedRegion == "" && !opts.s3UsEast1Regional && !AsksDualStack("s3", opts) ==>
              EndpointFor(p, "s3", "us-east-1", opts) == EndpointFor(p, "s3", "aws-global", opts)
    ensures opts.resolvedRegion == "" && region != ""
            && (service == "s3" && region == "us-east-1" ==> opts.s3UsEast1Regional || AsksDualStack("s3", opts)) ==>
              LookupRegion(ServiceOf(p, service), service, RequestedRegion(region, opts), opts) == region
  {
    hide MergeAll, ResolveMerged, EndpointForRegion, ServiceDefaults, DefaultOf, ListedFor, Layers;
  }

  /**
   When a partition resolves at all, and how it fails: it must know the service or be asked not to care; there must be
   a region, of the right format; and an endpoint that is not there is made from defaults for its variant, where there
   are any, unless the match is strict.
   */
  lemma ResolvesExactlyWhen(p: Partition, service: string, region: string, opts: Options)
    ensures var s := ServiceOf(p, service);
            var lookup := LookupRegion(s, service, RequestedRegion(region, opts), opts);
            var v := AsksDualStack(service, opts);
            var known := service != "" && (service in p.services || opts.resolveUnknownService);
            var found := lookup != "" && (IsThere(s, lookup, v)
                                          || (!opts.strictMatching && (v in s.defaults || v in p.defaults)));
            match EndpointFor(p, service, region, opts)
            case Ok(_) => known && found && ValidRegion(lookup)
            case Err(InvalidRegion) => known && found && !ValidRegion(lookup)
            case Err(UnknownEndpoint(id, name, r, listed)) =>
              && known && !found && id == p.id && name == service && r == lookup
              && forall key :: key in listed <==> (key, v) in s.endpoints
            case Err(UnknownService(id, name, services)) =>
              !known && id == p.id && name == service && services == p.services.Keys
  {
    hide MergeAll, ServiceDefaults, ServiceOf, ListedFor, Layers, LookupRegion, ValidRegion, Host, ByPriority;
    Listed(ServiceOf(p, service), opts.VariantFor(service));
  }

  lemma Listed(s: Service, v: Variant)
    ensures forall region :: region in ListedFor(s, v) <==> (region, v) in s.endpoints
  {
    forall region
      ensures region in ListedFor(s, v) <==> (region, v) in s.endpoints
    {
      if (region, v) in s.endpoints {
        assert (region, v).0 in ListedFor(s, v);
      }
    }
  }

  /** The three layers: what the partition, the service and the endpoint say about the variant. */
  lemma LayersOf(p: Partition, service: string, region: string, opts: Options)
    ensures var v := AsksDualStack(service, opts);
            var s := ServiceOf(p, service);
            var layers := LayersFor(p, service, region, opts);
            && |layers| == 3
            && layers[0] == (if v in p.defaults then p.defaults[v] else BLANK)
            && layers[1] == (if v in s.defaults then s.defaults[v]
                             else if v && false in s.defaults then s.defaults[false].(hostname := "", dnsSuffix := "")
                             else BLANK)
            && layers[2] == (if (region, v) in s.endpoints then s.endpoints[(region, v)]
                             else if s.isRegionalized == BoxedFalse && (s.partitionEndpoint, v) in s.endpoints
                             then s.endpoints[(s.partitionEndpoint, v)] else BLANK)
  {
  }

  predicate ListsOrMatches(p: Partition, service: string, region: string, opts: Options) {
    || (region, AsksDualStack(service, opts)) in ServiceOf(p, service).endpoints
    || (!opts.strictMatching && p.matches(region))
  }

  /**
   The first partition answers that lists the endpoint for the variant asked for, or whose expression the region
   matches unless the match is strict. When none does, the first of all answers, or none when the match is strict.
   */
  lemma WhichPartitionAnswers(ps: seq<Partition>, service: string, region: string, opts: Options, i: nat)
    requires i <= |ps|
    requires forall j | 0 <= j < i :: !ListsOrMatches(ps[j], service, RequestedRegion(region, opts), opts)
    ensures i < |ps| && ListsOrMatches(ps[i], service, RequestedRegion(region, opts), opts) ==>
              EndpointForAny(ps, service, region, opts) == EndpointFor(ps[i], service, region, opts)
    ensures i == |ps| ==>
              if opts.strictMatching || ps == [] then EndpointForAny(ps, service, region, opts).Err?
              else EndpointForAny(ps, service, region, opts) == EndpointFor(ps[0], service, region, opts)
  {
    hide EndpointFor;
    var requested := RequestedRegion(region, opts);
    if i < |ps| && CanResolve(ps[i], service, requested, opts) {
      ChosenIsFirst(ps, service, requested, opts, i);
      WhichRegionIsResolved(ps[i], service, region, opts);
    } else if i == |ps| {
      ChosenOrNone(ps, service, requested, opts);
      if ps != [] {
        WhichRegionIsResolved(ps[0], service, region, opts);
      }
    }
  }

  // -------------------------------------------------------------- dual stack

  function StandardService(s: Service): Service {
    s.(defaults := map v | v in s.defaults && !v :: s.defaults[v],
       endpoints := map key | key in s.endpoints && !key.1 :: s.endpoints[key])
  }

  /** The partition without any dual-stack entry. */
  function StandardOnly(p: Partition): Partition {
    p.(defaults := map v | v in p.defaults && !v :: p.defaults[v],
       services := map id | id in p.services :: StandardService(p.services[id]))
  }

  function DualStackService(s: Service): Service {
    s.(defaults := map v | v in s.defaults ::
         if v then s.defaults[v] else s.defaults[v].(hostname := "", dnsSuffix := ""),
       endpoints := map key | key in s.endpoints && key.1 :: s.endpoints[key])
  }

  /** The partition without standard endpoints and defaults, and without the names that standard entries give. */
  function DualStackOnly(p: Partition): Partition {
    p.(dnsSuffix := "",
       defaults := map v | v in p.defaults && v :: p.defaults[v],
       services := map id | id in p.services :: DualStackService(p.services[id]))
  }

  /** The same entries of one variant are listed. */
  lemma SameListed(s: Service, t: Service, v: Variant)
    requires forall region :: (region, v) in s.endpoints <==> (region, v) in t.endpoints
    ensures ListedFor(s, v) == ListedFor(t, v)
  {
    Listed(s, v);
    Listed(t, v);
    hide ListedFor;
  }

  /** Two services answer alike about a variant. */
  ghost predicate Alike(s: Service, t: Service, v: Variant) {
    && s.partitionEndpoint == t.partitionEndpoint && s.isRegionalized == t.isRegionalized
    && (v in s.defaults <==> v in t.defaults) && ServiceDefaults(s, v) == ServiceDefaults(t, v)
    && forall region ::
         && ((region, v) in s.endpoints <==> (region, v) in t.endpoints)
         && EndpointForRegion(s, region, v) == EndpointForRegion(t, region, v)
  }

  lemma StandardAlike(s: Service)
    ensures Alike(s, StandardService(s), false)
  {
  }

  lemma DualStackAlike(s: Service)
    ensures Alike(s, DualStackService(s), true)
  {
  }

  lemma AlikeResolveAlike(p: Partition, q: Partition, service: string, region: string, opts: Options)
    requires var v := opts.VariantFor(service);
             && Alike(ServiceOf(p, service), ServiceOf(q, service), v)
             && (v in p.defaults <==> v in q.defaults) && DefaultOf(p.defaults, v) == DefaultOf(q.defaults, v)
             && (!v ==> p.dnsSuffix == q.dnsSuffix)
    requires p.id == q.id && p.services.Keys == q.services.Keys
    ensures EndpointFor(p, service, region, opts) == EndpointFor(q, service, region, opts)
  {
    hide ListedFor, MergeAll, ResolveMerged, EndpointForRegion, ServiceDefaults, DefaultOf, RewritesToGlobal, ServiceOf;
    SameListed(ServiceOf(p, service), ServiceOf(q, service), opts.VariantFor(service));
  }

  /**
   The two kinds of resolution are apart. A standard one reads nothing that is marked dual-stack; a dual-stack one
   reads no standard endpoint, and no hostname or DNS suffix of any standard entry or of the partition.
   */
  lemma VariantsAreApart(p: Partition, service: string, region: string, opts: Options)
    ensures AsksDualStack(service, opts) ==>
              EndpointFor(p, service, region, opts) == EndpointFor(DualStackOnly(p), service, region, opts)
    ensures !AsksDualStack(service, opts) ==>
              EndpointFor(p, service, region, opts) == EndpointFor(StandardOnly(p), service, region, opts)
  {
    hide Alike, EndpointFor;
    var q := if AsksDualStack(service, opts) then DualStackOnly(p) else StandardOnly(p);
    StandardAlike(ServiceOf(p, service));
    DualStackAlike(ServiceOf(p, service));
    assert StandardService(NO_SERVICE) == NO_SERVICE == DualStackService(NO_SERVICE);
    assert q.services.Keys == p.services.Keys;
    AlikeResolveAlike(p, q, service, region, opts);
  }

  // ------------------------------------------------------------- enumerating

  /** `Region.Services`: the services with a standard endpoint in the region. */
  method ServicesOfRegion(p: Partition, region: string) returns (ss: set<string>)
    ensures ss == ServiceIds(p, region)
  {
    ss := {};
    var left := p.services.Keys;
    while left != {}
      invariant left <= p.services.Keys
      invariant ss == set id | id in p.services && id !in left && (region, false) in p.services[id].endpoints
      decreases |left|
    {
      var id :| id in left;
      left := left - {id};
      if (region, false) in p.services[id].endpoints {
        ss := ss + {id};
      }
    }
  }

  /** `Service.Regions`: the known regions with a standard endpoint of the service, with their descriptions. */
  method RegionsOfService(p: Partition, service: string) returns (rs: map<string, string>)
    ensures rs == map id | id in RegionIds(p, service) :: p.regions[id]
  {
    rs := map[];
    var es := ServiceOf(p, service).endpoints;
    var left := es.Keys;
    while left != {}
      invariant left <= es.Keys
      invariant rs == map id | id in p.regions && (id, false) in es && (id, false) !in left :: p.regions[id]
      decreases |left|
    {
      var key :| key in left;
      left := left - {key};
      if key.1 {
        continue;
      }
      if key.0 in p.regions {
        rs := rs[key.0 := p.regions[key.0]];
      }
    }
  }

  /** `Service.Endpoints`: the identifiers of the service's standard endpoints. */
  method EndpointsOfService(p: Partition, service: string) returns (ids: set<string>)
    ensures ids == EndpointIds(p, service)
  {
    ids := {};
    var es := ServiceOf(p, service).endpoints;
    var left := es.Keys;
    while left != {}
      invariant left <= es.Keys
      invariant ids == set key | key in es && key !in left && !key.1 :: key.0
      decreases |left|
    {
      var key :| key in left;
      left := left - {key};
      if key.1 {
        continue;
      }
      ids := ids + {key.0};
    }
  }

  function EndpointIds(p: Partition, service: string): set<string> { ListedFor(ServiceOf(p, service), false) }

  function ServiceIds(p: Partition, region: string): set<string> {
    set id | id in p.services && (region, false) in p.services[id].endpoints
  }

  function RegionIds(p: Partition, service: string): set<string> {
    set id | id in p.regions && (id, false) in ServiceOf(p, service).endpoints
  }

  /**
   The regions of a service and the services of a region are inverse to each other, and the regions of a service are
   its endpoint identifiers that name known regions.
   */
  lemma EnumerationsAgree(p: Partition)
    ensures forall service, region | service in p.services && region in p.regions ::
              region in RegionIds(p, service) <==> service in ServiceIds(p, region)
    ensures forall service :: RegionIds(p, service) == EndpointIds(p, service) * p.regions.Keys
  {
    forall service
      ensures RegionIds(p, service) == EndpointIds(p, service) * p.regions.Keys
    {
      var es := ServiceOf(p, service).endpoints;
      forall id
        ensures id in RegionIds(p, service) <==> id in EndpointIds(p, service) * p.regions.Keys
      {
        if (id, false) in es {
          assert (id, false).0 in EndpointIds(p, service);
        }
      }
    }
  }

  /** Every partition whose service lists an endpoint can resolve it, also when matching strictly. */
  lemma ListedEndpointCanBeResolved(p: Partition, service: string, id: string, opts: Options)
    requires id in EndpointIds(p, service) && !opts.VariantFor(service)
    ensures CanResolve(p, service, id, opts)
  {
    var key :| key in ServiceOf(p, service).endpoints && !key.1 && key.0 == id;
    assert key == (id, false);
  }

  /** The partition that answers is the first that can resolve the request: none before it can. */
  predicate IsFirstResolver(ps: seq<Partition>, service: string, region: string, opts: Options, i: nat) {
    && i < |ps| && CanResolve(ps[i], service, region, opts)
    && forall j | 0 <= j < i :: !CanResolve(ps[j], service, region, opts)
  }

  lemma {:induction false} FirstResolverExists(ps: seq<Partition>, service: string, region: string, opts: Options,
                                               n: nat)
    returns (i: nat)
    requires n < |ps| && CanResolve(ps[n], service, region, opts)
    ensures i <= n && IsFirstResolver(ps, service, region, opts, i)
    decreases n
  {
    if j :| 0 <= j < n && CanResolve(ps[j], service, region, opts) {
      i := FirstResolverExists(ps, service, region, opts, j);
    } else {
      i := n;
    }
  }

  /**
   An endpoint that the enumeration of some partition lists is never answered by falling back: the first partition
   that can resolve it answers, which is that one or stands before it, also when matching strictly.
   */
  lemma ListedEndpointIsFound(ps: seq<Partition>, n: nat, service: string, id: string, opts: Options)
    requires n < |ps| && id in EndpointIds(ps[n], service)
    requires RequestedRegion(id, opts) == id && !opts.VariantFor(service)
    ensures exists i: nat | i <= n ::
              && IsFirstResolver(ps, service, id, opts, i)
              && EndpointForAny(ps, service, id, opts) == EndpointFor(ps[i], service, id, opts)
  {
    hide EndpointFor, CanResolve;
    ListedEndpointCanBeResolved(ps[n], service, id, opts);
    var i := FirstResolverExists(ps, service, id, opts, n);
    ChosenIsFirst(ps, service, id, opts, i);
    assert IsFirstResolver(ps, service, id, opts, i);
  }

  /** A service has an endpoint for the region: a listed one, or its partition's when it is not regionalized. */
  predicate IsThere(s: Service, region: string, v: Variant) {
    (region, v) in s.endpoints || (s.isRegionalized == BoxedFalse && region == s.partitionEndpoint)
  }

  /**
   A listed endpoint with a valid region format, matched strictly at its own partition. Its standard variant resolves
   if and only if the legacy S3 rewrite does not apply, or its target is there; its dual-stack variant if and only if
   that is there: listed, or the endpoint of a service that is not regionalized.
   */
  lemma ListedEndpointResolvesStrictly(p: Partition, service: string, id: string, opts: Options)
    requires service != "" && id in EndpointIds(p, service) && ValidRegion(id)
    requires opts.strictMatching && RequestedRegion(id, opts) == id
    ensures EndpointFor(p, service, id, opts).Ok? <==>
              if opts.VariantFor(service) then IsThere(ServiceOf(p, service), id, true)
              else RewritesToGlobal(service, id, opts) ==> IsThere(ServiceOf(p, service), GLOBAL, false)
  {
    var key :| key in ServiceOf(p, service).endpoints && !key.1 && key.0 == id;
    assert key == (id, false);
    assert ValidRegion(GLOBAL);
    hide MergeAll, Layers, Host, ServiceDefaults;
  }
}
