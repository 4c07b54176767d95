/** The installer's plan for one host: which services it runs, on which ports,
    and when it refuses. Ports are 16-bit, so sums are checked. */
module PortPlan {
  import opened Basics
  import opened Sorting

  const MAX_PORT := 65_535

  type Port = p: int | 0 <= p <= MAX_PORT

  datatype Ports = Ports(meta: Port, metaAdmin: Port, metaMetrics: Port, osd: Port, osdMetrics: Port, gateway: Port)

  datatype Role = All | Meta | Osd | Gateway

  datatype Spec = Spec(roles: seq<Role>, disks: seq<string>, nodeId: nat, metaEndpoint: Option<string>, ports: Ports) {
    predicate Runs(role: Role) { All in roles || role in roles }
  }

  /** What listens on a port. */
  datatype User = MetaUser | MetaAdmin | MetaMetrics | OsdUser(i: nat) | OsdMetrics(i: nat) | GatewayUser

  datatype Use = Use(port: Port, user: User)

  /** The metadata address services are given: as named, or this host's own. */
  datatype Endpoint = Named(address: string) | Local(port: Port) | Nowhere

  datatype Service =
    | MetaService(nodeId: nat, port: Port, admin: Port, metrics: Port)
    | OsdService(i: nat, disk: string, port: Port, metrics: Port, endpoint: Endpoint)
    | GatewayService(port: Port, endpoint: Endpoint)

  datatype Refusal =
    | NoRole
    | NoNodeId
    | NoMetaEndpoint
    | NoDisks
    | PastEnd(i: nat, base: Port)
    | Shared(first: User, second: User, port: Port)

  datatype Planned = Ok(services: seq<Service>) | Err(refusal: Refusal)

  // ----- what the ports should be -----------------------------------------

  /** `u` runs on this host and takes port `p`, were ports unbounded. */
  predicate Takes(s: Spec, u: User, p: int) {
    match u
    case MetaUser => s.Runs(Meta) && p == s.ports.meta
    case MetaAdmin => s.Runs(Meta) && p == s.ports.metaAdmin
    case MetaMetrics => s.Runs(Meta) && p == s.ports.metaMetrics
    case OsdUser(i) => s.Runs(Osd) && i < |s.disks| && p == s.ports.osd + 2 * i
    case OsdMetrics(i) =>
      s.Runs(Osd) && i < |s.disks| && p == if s.ports.osdMetrics == 0 then 0 else s.ports.osdMetrics + 2 * i
    case GatewayUser => s.Runs(Gateway) && p == s.ports.gateway
  }

  ghost predicate AllInRange(s: Spec) {
    forall u, p :: Takes(s, u, p) ==> p <= MAX_PORT
  }

  ghost predicate SharedBy(s: Spec, u: User, v: User, p: int) {
    Takes(s, u, p) && Takes(s, v, p) && p != 0 && u != v
  }

  /** No two take the same port; 0 is no port. */
  ghost predicate NoneShared(s: Spec) {
    forall u, v, p :: !SharedBy(s, u, v, p)
  }

  predicate InputsValid(s: Spec) {
    && s.roles != []
    && s.nodeId != 0
    && (s.metaEndpoint.Some? || s.Runs(Meta) || (!s.Runs(Osd) && !s.Runs(Gateway)))
    && (s.Runs(Osd) ==> s.disks != [])
  }

  // ----- the ports of OSDs ------------------------------------------------

  /** `Ports::osd_port`, which takes the next pair for each OSD. */
  function OsdPort(base: Port, i: nat): (p: Option<Port>)
    ensures p == if base + 2 * i <= MAX_PORT then Some(base + 2 * i) else None
  {
    if i * 2 > MAX_PORT then None
    else if base + i * 2 > MAX_PORT then None
    else Some(base + i * 2)
  }

  /** `Ports::osd_metrics` */
  function OsdMetricsPort(base: Port, i: nat): Option<Port> {
    if base == 0 then Some(0) else OsdPort(base, i)
  }

  // ----- sorting uses and finding two of the same port --------------------

  function Decimal(n: nat): string {
    var digit := "0123456789"[n % 10];
    if n < 10 then [digit] else Decimal(n / 10) + [digit]
  }

  function Label(u: User): string {
    match u
    case MetaUser => "meta"
    case MetaAdmin => "meta admin"
    case MetaMetrics => "meta metrics"
    case OsdUser(i) => "OSD " + Decimal(i)
    case OsdMetrics(i) => "OSD " + Decimal(i) + " metrics"
    case GatewayUser => "gateway"
  }

  predicate Below(x: char, y: char) { x < y }

  predicate UseNotAfter(a: Use, b: Use) {
    a.port < b.port || (a.port == b.port && Lexical(Label(a.user), Label(b.user), Below))
  }

  lemma UsesAreOrdered()
    ensures IsPreorder(UseNotAfter)
  {
    forall a, b ensures UseNotAfter(a, b) || UseNotAfter(b, a) {
      LexicalTotal(Label(a.user), Label(b.user), Below);
    }
    forall a, b, c | UseNotAfter(a, b) && UseNotAfter(b, c) ensures UseNotAfter(a, c) {
      if a.port == b.port == c.port { LexicalTransitive(Label(a.user), Label(b.user), Label(c.user), Below); }
    }
  }

  /** Of two labels in order, where they first differ the smaller character is first. */
  lemma LabelsInOrder(u: User, v: User, d: nat)
    requires Lexical(Label(u), Label(v), Below)
    ensures FirstDiffer(Label(u), Label(v), d) ==> Label(u)[d] < Label(v)[d]
    ensures Label(v) <= Label(u) ==> Label(u) == Label(v)
  {
    LexicalSays(Label(u), Label(v), Below, d);
  }

  /** Two uses in `uses` of one port. */
  ghost predicate Clash(uses: seq<Use>, a: Use, b: Use) {
    a in uses && b in uses && a != b && a.port == b.port != 0
  }

  function Retained(uses: seq<Use>): (r: seq<Use>)
    ensures forall a :: a in r <==> a in uses && a.port != 0
    ensures Distinct(uses) ==> Distinct(r)
  {
    if uses == [] then []
    else
      assert uses == [uses[0]] + uses[1..];
      assert Distinct(uses) ==> uses[0] !in uses[1..] && Distinct(uses[1..]);
      (if uses[0].port != 0 then [uses[0]] else []) + Retained(uses[1..])
  }

  /** `a` and `b` come first, in that order, of the uses of their port. */
  ghost predicate ComeFirst(uses: seq<Use>, a: Use, b: Use) {
    && UseNotAfter(a, b)
    && forall c :: c in uses && c.port == a.port && c != a && c != b ==> UseNotAfter(b, c)
  }

  /** The sort brings a shared port's users together, so looking at neighbours
      finds one: the least such port's first two. */
  method FindShared(uses: seq<Use>) returns (found: Option<(Use, Use)>)
    requires Distinct(uses)
    ensures found.None? <==> forall a, b :: !Clash(uses, a, b)
    ensures found.Some? ==> Clash(uses, found.value.0, found.value.1)
    ensures found.Some? ==> forall a, b :: Clash(uses, a, b) ==> found.value.0.port <= a.port
    ensures found.Some? ==> ComeFirst(uses, found.value.0, found.value.1)
  {
    var sorted := Sort(Retained(uses), UseNotAfter);
    RetainedSorted(uses, sorted);
    found := FindNeighbours(uses, sorted);
  }

  method FindNeighbours(ghost uses: seq<Use>, sorted: seq<Use>) returns (found: Option<(Use, Use)>)
    requires InOrder(sorted, UseNotAfter) && PortsRise(sorted) && Distinct(sorted)
    requires forall a :: a in sorted <==> a in uses && a.port != 0
    ensures found.None? <==> forall a, b :: !Clash(uses, a, b)
    ensures found.Some? ==> Clash(uses, found.value.0, found.value.1)
    ensures found.Some? ==> forall a, b :: Clash(uses, a, b) ==> found.value.0.port <= a.port
    ensures found.Some? ==> ComeFirst(uses, found.value.0, found.value.1)
  {
    var k := 0;
    while k + 1 < |sorted|
      invariant forall i :: 0 <= i < k && i + 1 < |sorted| ==> sorted[i].port != sorted[i + 1].port
    {
      if sorted[k].port == sorted[k + 1].port {
        forall a, b | Clash(uses, a, b) ensures sorted[k].port <= a.port {
          var i := NextTo(sorted, a, b);
          assert k <= i;
        }
        assert Clash(uses, sorted[k], sorted[k + 1]);
        forall c | c in uses && c.port == sorted[k].port && c != sorted[k] && c != sorted[k + 1]
          ensures UseNotAfter(sorted[k + 1], c)
        {
          AfterNeighbours(sorted, k, c);
        }
        return Some((sorted[k], sorted[k + 1]));
      }
      k := k + 1;
    }
    forall a, b ensures !Clash(uses, a, b) {
      if Clash(uses, a, b) { var i := NextTo(sorted, a, b); }
    }
    return None;
  }

  lemma RetainedSorted(uses: seq<Use>, sorted: seq<Use>)
    requires Distinct(uses) && sorted == Sort(Retained(uses), UseNotAfter)
    ensures InOrder(sorted, UseNotAfter) && PortsRise(sorted) && Distinct(sorted)
    ensures forall a :: a in sorted <==> a in uses && a.port != 0
  {
    SortKeepsElements(Retained(uses), UseNotAfter);
    UsesAreOrdered();
    SortPutsInOrder(Retained(uses), UseNotAfter);
    forall i, j | 0 <= i < j < |sorted| ensures sorted[i].port <= sorted[j].port {
      assert UseNotAfter(sorted[i], sorted[j]);
    }
  }

  ghost predicate PortsRise(sorted: seq<Use>) {
    forall i, j :: 0 <= i < j < |sorted| ==> sorted[i].port <= sorted[j].port
  }

  /** What else uses the first port found twice comes later. */
  lemma AfterNeighbours(sorted: seq<Use>, k: nat, c: Use)
    requires InOrder(sorted, UseNotAfter) && PortsRise(sorted) && k + 1 < |sorted|
    requires forall i :: 0 <= i < k ==> sorted[i].port != sorted[i + 1].port
    requires c in sorted && c.port == sorted[k].port && c != sorted[k] && c != sorted[k + 1]
    ensures UseNotAfter(sorted[k + 1], c)
  {
    forall i | 0 <= i < k ensures sorted[i].port < sorted[k].port {
      assert sorted[i].port <= sorted[i + 1].port;
    }
    var j :| 0 <= j < |sorted| && sorted[j] == c;
  }

  /** In sorted uses, a port used twice is used by two neighbours. */
  lemma NextTo(sorted: seq<Use>, a: Use, b: Use) returns (i: nat)
    requires PortsRise(sorted) && a in sorted && b in sorted && a != b && a.port == b.port
    ensures i + 1 < |sorted| && sorted[i].port == sorted[i + 1].port == a.port
  {
    var x :| 0 <= x < |sorted| && sorted[x] == a;
    var y :| 0 <= y < |sorted| && sorted[y] == b;
    i := if x < y then x else y;
  }

  // ----- the plan ---------------------------------------------------------

  function MetricsOf(s: Spec, i: nat): int {
    if s.ports.osdMetrics == 0 then 0 else s.ports.osdMetrics + 2 * i
  }

  predicate Fits(s: Spec, i: nat) {
    s.ports.osd + 2 * i <= MAX_PORT && MetricsOf(s, i) <= MAX_PORT
  }

  function MetaUses(s: Spec): seq<Use> {
    if s.Runs(Meta)
    then [Use(s.ports.meta, MetaUser), Use(s.ports.metaAdmin, MetaAdmin), Use(s.ports.metaMetrics, MetaMetrics)]
    else []
  }

  function OsdPair(s: Spec, i: nat): seq<Use>
    requires Fits(s, i)
  {
    [Use(s.ports.osd + 2 * i, OsdUser(i)), Use(MetricsOf(s, i), OsdMetrics(i))]
  }

  /** The ports of the first `n` OSDs. */
  function OsdUses(s: Spec, n: nat): (uses: seq<Use>)
    requires forall i: nat :: i < n ==> Fits(s, i)
    ensures Distinct(uses)
    ensures forall a :: a in uses <==> OsdUse(s, n, a)
  {
    if n == 0 then []
    else
      assert Fits(s, n - 1);
      var pair := OsdPair(s, n - 1);
      DistinctJoined(OsdUses(s, n - 1), pair);
      OsdUses(s, n - 1) + pair
  }

  predicate OsdUse(s: Spec, n: nat, a: Use) {
    match a.user
    case OsdUser(i) => i < n && a.port == s.ports.osd + 2 * i
    case OsdMetrics(i) => i < n && a.port == MetricsOf(s, i)
    case _ => false
  }

  function GatewayUses(s: Spec): seq<Use> {
    if s.Runs(Gateway) then [Use(s.ports.gateway, GatewayUser)] else []
  }

  ghost predicate AllFit(s: Spec) {
    s.Runs(Osd) ==> forall i: nat :: i < |s.disks| ==> Fits(s, i)
  }

  function Uses(s: Spec): seq<Use>
    requires AllFit(s)
  {
    MetaUses(s) + (if s.Runs(Osd) then OsdUses(s, |s.disks|) else []) + GatewayUses(s)
  }

  /** The list holds each port taken, once. */
  lemma UsesAreTaken(s: Spec)
    requires AllFit(s)
    ensures Distinct(Uses(s))
    ensures forall a :: a in Uses(s) <==> Takes(s, a.user, a.port)
  {
    var osds := if s.Runs(Osd) then OsdUses(s, |s.disks|) else [];
    DistinctJoined(MetaUses(s), osds);
    DistinctJoined(MetaUses(s) + osds, GatewayUses(s));
  }

  lemma FitIsInRange(s: Spec)
    ensures AllFit(s) <==> AllInRange(s)
  {
    if AllInRange(s) && s.Runs(Osd) {
      forall i: nat | i < |s.disks| ensures Fits(s, i) {
        assert Takes(s, OsdUser(i), s.ports.osd + 2 * i);
        assert Takes(s, OsdMetrics(i), MetricsOf(s, i));
      }
    }
    if AllFit(s) {
      forall u, p | Takes(s, u, p) ensures p <= MAX_PORT {
        match u
        case OsdUser(i) => assert Fits(s, i);
        case OsdMetrics(i) => assert Fits(s, i);
        case _ =>
      }
    }
  }

  lemma ClashIsShared(s: Spec, u: User, v: User, p: int)
    requires AllFit(s)
    ensures SharedBy(s, u, v, p) ==> 0 <= p <= MAX_PORT && Clash(Uses(s), Use(p, u), Use(p, v))
    ensures 0 <= p <= MAX_PORT && Clash(Uses(s), Use(p, u), Use(p, v)) ==> SharedBy(s, u, v, p)
  {
    UsesAreTaken(s);
    FitIsInRange(s);
  }

  function EndpointOf(s: Spec): Endpoint {
    if s.metaEndpoint.Some? then Named(s.metaEndpoint.value) else if s.Runs(Meta) then Local(s.ports.meta) else Nowhere
  }

  function MetaServices(s: Spec): seq<Service> {
    if s.Runs(Meta) then [MetaService(s.nodeId, s.ports.meta, s.ports.metaAdmin, s.ports.metaMetrics)] else []
  }

  function OsdServices(s: Spec, n: nat): (r: seq<Service>)
    requires n <= |s.disks| && forall i: nat :: i < n ==> Fits(s, i)
    ensures |r| == n
    ensures forall i: nat :: i < n ==>
      Fits(s, i) && r[i] == OsdService(i, s.disks[i], s.ports.osd + 2 * i, MetricsOf(s, i), EndpointOf(s))
  {
    if n == 0 then []
    else
      assert Fits(s, n - 1);
      OsdServices(s, n - 1) +
      [OsdService(n - 1, s.disks[n - 1], s.ports.osd + 2 * (n - 1), MetricsOf(s, n - 1), EndpointOf(s))]
  }

  /** One service for each role run, and for OSDs one for each disk. */
  function Services(s: Spec): seq<Service>
    requires AllFit(s)
  {
    MetaServices(s) + (if s.Runs(Osd) then OsdServices(s, |s.disks|) else []) +
    (if s.Runs(Gateway) then [GatewayService(s.ports.gateway, EndpointOf(s))] else [])
  }

  /** The metadata address a service is given: the one named, or else this host's own. */
  ghost predicate GivenTo(s: Spec, e: Endpoint) {
    match s.metaEndpoint
    case Some(address) => e == Named(address)
    case None => e.Local? && Takes(s, MetaUser, e.port)
  }

  /** A service to run: it has the ports its users take. */
  ghost predicate IsService(s: Spec, service: Service) {
    match service
    case MetaService(id, port, admin, metrics) =>
      id == s.nodeId && Takes(s, MetaUser, port) && Takes(s, MetaAdmin, admin) && Takes(s, MetaMetrics, metrics)
    case OsdService(i, disk, port, metrics, endpoint) =>
      && Takes(s, OsdUser(i), port) && Takes(s, OsdMetrics(i), metrics) && disk == s.disks[i]
      && GivenTo(s, endpoint)
    case GatewayService(port, endpoint) => Takes(s, GatewayUser, port) && GivenTo(s, endpoint)
  }

  lemma OsdServicesAre(s: Spec, service: Service)
    requires AllFit(s) && InputsValid(s) && s.Runs(Osd)
    ensures service in OsdServices(s, |s.disks|) <==> service.OsdService? && IsService(s, service)
  {
    var osds := OsdServices(s, |s.disks|);
    if service.OsdService? && IsService(s, service) { assert osds[service.i] == service; }
  }

  lemma GatewaysAre(s: Spec, service: Service)
    requires InputsValid(s) && s.Runs(Gateway)
    ensures service == GatewayService(s.ports.gateway, EndpointOf(s)) <==>
      service.GatewayService? && IsService(s, service)
  {
  }

  /** The services planned are exactly those, each once. */
  lemma ServicesAre(s: Spec)
    requires AllFit(s) && InputsValid(s)
    ensures Distinct(Services(s))
    ensures forall service :: service in Services(s) <==> IsService(s, service)
  {
    var osds := if s.Runs(Osd) then OsdServices(s, |s.disks|) else [];
    var gateways := if s.Runs(Gateway) then [GatewayService(s.ports.gateway, EndpointOf(s))] else [];
    DistinctJoined(MetaServices(s), osds);
    DistinctJoined(MetaServices(s) + osds, gateways);
    forall service: Service ensures service in Services(s) <==> IsService(s, service) {
      if s.Runs(Osd) { OsdServicesAre(s, service); }
      if s.Runs(Gateway) { GatewaysAre(s, service); }
    }
  }

  ghost predicate FirstPast(s: Spec, i: nat, base: Port) {
    && s.Runs(Osd)
    && i < |s.disks|
    && (forall j: nat :: j < i ==> Fits(s, j))
    && base == (if s.ports.osd + 2 * i > MAX_PORT then s.ports.osd else s.ports.osdMetrics)
    && base + 2 * i > MAX_PORT
    && !Fits(s, i)
  }

  /** The least port shared, and the first two of its users by their labels. */
  ghost predicate LeastShared(s: Spec, u: User, v: User, p: Port) {
    && SharedBy(s, u, v, p) && (forall u', v', p' :: SharedBy(s, u', v', p') ==> p <= p')
    && Lexical(Label(u), Label(v), Below)
    && forall u' :: Takes(s, u', p) && u' != u && u' != v ==> Lexical(Label(v), Label(u'), Below)
  }

  /** When each refusal is due. */
  ghost predicate Due(s: Spec, e: Refusal) {
    match e
    case NoRole => s.roles == []
    case NoNodeId => s.roles != [] && s.nodeId == 0
    case NoMetaEndpoint =>
      s.roles != [] && s.nodeId != 0 && s.metaEndpoint.None? && !s.Runs(Meta) && (s.Runs(Osd) || s.Runs(Gateway))
    case NoDisks =>
      s.roles != [] && s.nodeId != 0 && (s.metaEndpoint.Some? || s.Runs(Meta)) && s.Runs(Osd) && s.disks == []
    case PastEnd(i, base) => InputsValid(s) && FirstPast(s, i, base)
    case Shared(u, v, p) => InputsValid(s) && AllInRange(s) && LeastShared(s, u, v, p)
  }

  /** The part of `plan` for the OSDs, one for each disk. */
  method PlanOsds(s: Spec, endpoint: Endpoint)
    returns (refusal: Option<Refusal>, services: seq<Service>, ports: seq<Use>)
    requires s.Runs(Osd) && InputsValid(s) && endpoint == EndpointOf(s)
    ensures refusal.None? <==> AllFit(s)
    ensures refusal.None? ==> services == OsdServices(s, |s.disks|) && ports == OsdUses(s, |s.disks|)
    ensures refusal.Some? ==> refusal.value.PastEnd? && FirstPast(s, refusal.value.i, refusal.value.base)
  {
    services, ports := [], [];
    for i := 0 to |s.disks|
      invariant forall j: nat :: j < i ==> Fits(s, j)
      invariant services == OsdServices(s, i) && ports == OsdUses(s, i)
    {
      var port := OsdPort(s.ports.osd, i);
      var metrics := OsdMetricsPort(s.ports.osdMetrics, i);
      OsdFits(s, i);
      if port.None? {
        return Some(PastEnd(i, s.ports.osd)), [], [];
      }
      if metrics.None? {
        return Some(PastEnd(i, s.ports.osdMetrics)), [], [];
      }
      services := services + [OsdService(i, s.disks[i], port.value, metrics.value, endpoint)];
      ports := ports + [Use(port.value, OsdUser(i)), Use(metrics.value, OsdMetrics(i))];
    }
    return None, services, ports;
  }

  lemma OsdFits(s: Spec, i: nat)
    ensures var port, metrics := OsdPort(s.ports.osd, i), OsdMetricsPort(s.ports.osdMetrics, i);
      && (Fits(s, i) <==> port.Some? && metrics.Some?)
      && (port.Some? ==> port.value == s.ports.osd + 2 * i)
      && (metrics.Some? ==> metrics.value == MetricsOf(s, i))
      && (port.None? ==> s.ports.osd + 2 * i > MAX_PORT)
      && (metrics.None? ==> s.ports.osdMetrics + 2 * i > MAX_PORT)
  {
  }

  lemma FirstByLabel(s: Spec, a: Use, b: Use)
    requires AllFit(s) && ComeFirst(Uses(s), a, b) && a.port == b.port
    ensures Lexical(Label(a.user), Label(b.user), Below)
    ensures forall u :: Takes(s, u, a.port) && u != a.user && u != b.user ==>
      Lexical(Label(b.user), Label(u), Below)
  {
    UsesAreTaken(s);
    forall u | Takes(s, u, a.port) && u != a.user && u != b.user ensures Lexical(Label(b.user), Label(u), Below) {
      assert Use(a.port, u) in Uses(s);
    }
  }

  lemma SharedIsDue(s: Spec, a: Use, b: Use)
    requires AllFit(s) && InputsValid(s) && Clash(Uses(s), a, b) && ComeFirst(Uses(s), a, b)
    requires forall x, y :: Clash(Uses(s), x, y) ==> a.port <= x.port
    ensures Due(s, Shared(a.user, b.user, a.port)) && !NoneShared(s)
  {
    FitIsInRange(s);
    ClashIsShared(s, a.user, b.user, a.port);
    forall u, v, p | SharedBy(s, u, v, p) ensures a.port <= p {
      ClashIsShared(s, u, v, p);
    }
    FirstByLabel(s, a, b);
  }

  lemma NoClashNoneShared(s: Spec)
    requires AllFit(s) && forall a, b :: !Clash(Uses(s), a, b)
    ensures NoneShared(s)
  {
    forall u, v, p ensures !SharedBy(s, u, v, p) {
      ClashIsShared(s, u, v, p);
    }
  }

  /** The end of `plan`: no two services may want one port. */
  method Judge(s: Spec, ports: seq<Use>, services: seq<Service>) returns (r: Planned)
    requires AllFit(s) && InputsValid(s) && ports == Uses(s)
    ensures r.Ok? <==> NoneShared(s)
    ensures r.Ok? ==> r.services == services
    ensures r.Err? ==> Due(s, r.refusal)
  {
    UsesAreTaken(s);
    var found := FindShared(ports);
    match found
    case Some((a, b)) =>
      SharedIsDue(s, a, b);
      return Err(Shared(a.user, b.user, a.port));
    case None =>
      NoClashNoneShared(s);
      return Ok(services);
  }

  /** `plan` */
  method Plan(s: Spec) returns (r: Planned)
    ensures r.Ok? <==> InputsValid(s) && AllInRange(s) && NoneShared(s)
    ensures r.Ok? ==> AllFit(s) && r.services == Services(s)
    ensures r.Err? ==> Due(s, r.refusal)
  {
    FitIsInRange(s);
    if s.roles == [] {
      return Err(NoRole);
    }
    if s.nodeId == 0 {
      return Err(NoNodeId);
    }
    if s.metaEndpoint.None? && !s.Runs(Meta) && (s.Runs(Osd) || s.Runs(Gateway)) {
      return Err(NoMetaEndpoint);
    }
    var endpoint := EndpointOf(s);
    var services := [];
    var ports := [];
    if s.Runs(Meta) {
      services := services + [MetaService(s.nodeId, s.ports.meta, s.ports.metaAdmin, s.ports.metaMetrics)];
      ports := ports +
        [Use(s.ports.meta, MetaUser), Use(s.ports.metaAdmin, MetaAdmin), Use(s.ports.metaMetrics, MetaMetrics)];
    }
    if s.Runs(Osd) {
      if s.disks == [] {
        return Err(NoDisks);
      }
      var refusal, osdServices, osdPorts := PlanOsds(s, endpoint);
      if refusal.Some? {
        return Err(refusal.value);
      }
      services := services + osdServices;
      ports := ports + osdPorts;
    }
    if s.Runs(Gateway) {
      services := services + [GatewayService(s.ports.gateway, endpoint)];
      ports := ports + [Use(s.ports.gateway, GatewayUser)];
    }
    r := Judge(s, ports, services);
  }

  // ----- when the ports are right, in closed form -------------------------

  /** Some OSD counted from `base` has port `p`. */
  predicate OnOsd(base: Port, n: nat, p: int) { base <= p < base + 2 * n && (p - base) % 2 == 0 }

  lemma OnOsdIs(base: Port, n: nat, i: int)
    ensures 0 <= i < n ==> OnOsd(base, n, base + 2 * i)
  {
  }

  function FixedUsers(s: Spec): seq<User> {
    (if s.Runs(Meta) then [MetaUser, MetaAdmin, MetaMetrics] else []) + (if s.Runs(Gateway) then [GatewayUser] else [])
  }

  function FixedPort(s: Spec, u: User): Port {
    match u
    case MetaUser => s.ports.meta
    case MetaAdmin => s.ports.metaAdmin
    case MetaMetrics => s.ports.metaMetrics
    case _ => s.ports.gateway
  }

  /** The last OSD's ports are in range. */
  predicate LastFits(s: Spec) { s.Runs(Osd) && s.disks != [] ==> Fits(s, |s.disks| - 1) }

  /** The pairs of OSD ports step past one another. */
  predicate PairsApart(s: Spec) {
    var d := s.ports.osd - s.ports.osdMetrics;
    s.ports.osdMetrics == 0 || d % 2 == 1 || d >= 2 * |s.disks| || -d >= 2 * |s.disks|
  }

  predicate OffOsds(s: Spec, p: Port) {
    var n := |s.disks|;
    p == 0 || (!OnOsd(s.ports.osd, n, p) && (s.ports.osdMetrics == 0 || !OnOsd(s.ports.osdMetrics, n, p)))
  }

  ghost predicate FixedApart(s: Spec) {
    forall u, v :: u in FixedUsers(s) && v in FixedUsers(s) && u != v ==>
      FixedPort(s, u) == 0 || FixedPort(s, u) != FixedPort(s, v)
  }

  ghost predicate Clear(s: Spec) {
    && FixedApart(s)
    && (s.Runs(Osd) ==> PairsApart(s) && forall u :: u in FixedUsers(s) ==> OffOsds(s, FixedPort(s, u)))
  }

  lemma OffOsdsNeeded(s: Spec, u: User)
    requires NoneShared(s) && s.Runs(Osd) && u in FixedUsers(s)
    ensures OffOsds(s, FixedPort(s, u))
  {
    var p, n := FixedPort(s, u), |s.disks|;
    if p != 0 && OnOsd(s.ports.osd, n, p) {
      assert SharedBy(s, u, OsdUser((p - s.ports.osd) / 2), p);
    }
    if p != 0 && s.ports.osdMetrics != 0 && OnOsd(s.ports.osdMetrics, n, p) {
      assert SharedBy(s, u, OsdMetrics((p - s.ports.osdMetrics) / 2), p);
    }
  }

  lemma PairsApartNeeded(s: Spec)
    requires NoneShared(s) && s.Runs(Osd)
    ensures PairsApart(s)
  {
    var d := s.ports.osd - s.ports.osdMetrics;
    if !PairsApart(s) && d >= 0 {
      assert SharedBy(s, OsdUser(0), OsdMetrics(d / 2), s.ports.osd);
    }
    if !PairsApart(s) && d < 0 {
      assert SharedBy(s, OsdUser(-d / 2), OsdMetrics(0), s.ports.osdMetrics);
    }
  }

  lemma ClearNeeded(s: Spec)
    requires NoneShared(s)
    ensures Clear(s)
  {
    forall u, v | u in FixedUsers(s) && v in FixedUsers(s) && u != v
      ensures FixedPort(s, u) == 0 || FixedPort(s, u) != FixedPort(s, v)
    {
      assert !SharedBy(s, u, v, FixedPort(s, u));
    }
    if s.Runs(Osd) {
      PairsApartNeeded(s);
      forall u | u in FixedUsers(s) ensures OffOsds(s, FixedPort(s, u)) {
        OffOsdsNeeded(s, u);
      }
    }
  }

  /** A fixed user, or one of an OSD's ports. */
  lemma TakerIs(s: Spec, u: User, p: int)
    requires Takes(s, u, p) && p != 0
    ensures
      || (u in FixedUsers(s) && p == FixedPort(s, u))
      || (s.Runs(Osd) && u.OsdUser? && OnOsd(s.ports.osd, |s.disks|, p))
      || (s.Runs(Osd) && u.OsdMetrics? && s.ports.osdMetrics != 0 && OnOsd(s.ports.osdMetrics, |s.disks|, p))
  {
    match u
    case OsdUser(i) => OnOsdIs(s.ports.osd, |s.disks|, i);
    case OsdMetrics(i) => OnOsdIs(s.ports.osdMetrics, |s.disks|, i);
    case _ =>
  }

  lemma ClearSuffices(s: Spec, u: User, v: User, p: int)
    requires Clear(s)
    ensures !SharedBy(s, u, v, p)
  {
    if SharedBy(s, u, v, p) {
      TakerIs(s, u, p);
      TakerIs(s, v, p);
      assert false;
    }
  }

  /** The plan's two port conditions, as arithmetic on the ports asked for. */
  lemma PortsAreRightExactlyWhen(s: Spec)
    ensures AllInRange(s) && NoneShared(s) <==> LastFits(s) && Clear(s)
  {
    FitIsInRange(s);
    if NoneShared(s) { ClearNeeded(s); }
    if Clear(s) {
      forall u, v, p ensures !SharedBy(s, u, v, p) {
        ClearSuffices(s, u, v, p);
      }
    }
  }

  // ----- port 0 -----------------------------------------------------------

  /** Serves requests, not metrics. */
  predicate Listens(u: User) { !u.MetaMetrics? && !u.OsdMetrics? }

  /** No two of those share a port, 0 included. */
  ghost predicate ListenersApart(s: Spec) {
    forall u, v, p :: Takes(s, u, p) && Takes(s, v, p) && Listens(u) && Listens(v) ==> u == v
  }

  function One(b: bool): nat { if b then 1 else 0 }

  /** How many services were given port 0. */
  function ZeroListeners(s: Spec): nat {
    One(s.Runs(Meta) && s.ports.meta == 0) + One(s.Runs(Meta) && s.ports.metaAdmin == 0) +
    One(s.Runs(Osd) && s.disks != [] && s.ports.osd == 0) + One(s.Runs(Gateway) && s.ports.gateway == 0)
  }

  /** The check skips port 0 whoever has it, so a plan that passes it gives each
      service a port of its own exactly when at most one was given 0. */
  lemma ListenersApartExactlyWhen(s: Spec)
    requires NoneShared(s)
    ensures ListenersApart(s) <==> ZeroListeners(s) <= 1
  {
    if ZeroListeners(s) <= 1 {
      forall u, v, p | Takes(s, u, p) && Takes(s, v, p) && Listens(u) && Listens(v) ensures u == v {
        assert !SharedBy(s, u, v, p);
      }
    }
    if ListenersApart(s) {
      forall u, v | Takes(s, u, 0) && Takes(s, v, 0) && Listens(u) && Listens(v) ensures u == v {}
      assert Takes(s, MetaUser, 0) <==> s.Runs(Meta) && s.ports.meta == 0;
      assert Takes(s, MetaAdmin, 0) <==> s.Runs(Meta) && s.ports.metaAdmin == 0;
      assert Takes(s, OsdUser(0), 0) <==> s.Runs(Osd) && s.disks != [] && s.ports.osd == 0;
      assert Takes(s, GatewayUser, 0) <==> s.Runs(Gateway) && s.ports.gateway == 0;
    }
  }

  /** Meta and the gateway both given port 0 pass. */
  lemma TwoOnZeroPass()
    ensures var s := Spec([All], ["/dev/sda"], 1, None, Ports(0, 9102, 9101, 9200, 9201, 0));
      && InputsValid(s) && AllInRange(s) && NoneShared(s)
      && Takes(s, MetaUser, 0) && Takes(s, GatewayUser, 0)
  {
    var s := Spec([All], ["/dev/sda"], 1, None, Ports(0, 9102, 9101, 9200, 9201, 0));
    assert All in s.roles;
    PortsAreRightExactlyWhen(s);
    assert FixedUsers(s) == [MetaUser, MetaAdmin, MetaMetrics, GatewayUser];
    assert |s.disks| == 1;
  }
}
