/** The fleet lifecycle controller as values: the tracked containers, the
    version catalog and the log of calls made to the outside world, and how
    each operation of the controller transforms them. */
module Fleet {

  import opened Options
  import opened Versions
  import opened Catalog
  import opened Launch

  const DOCKER_USER := "stuxgames"
  const DOCKER_REPO := "flappierace"
  const MAX_RUNNING_SERVERS := 20
  const MAX_TAGS := 5

  /** A tracked game-server container: its runtime id and what it was run with. */
  datatype Container = Container(id: ContainerId, spec: RunSpec)

  /** What `container.reload()` observed: the container's status, or an
      exception (the container no longer exists). */
  datatype ReloadResult = Status(status: string) | ReloadRaised

  /** The calls the controller makes to the registry and the container runtime. */
  datatype Event =
    | FetchTags(user: string, repo: string, pageSize: nat)
    | Pull(image: string, tags: seq<Version>)
    | Reload(id: ContainerId)
    | Run(request: GameRequest, port: int)   // `containers.run` with the arguments SpecFor(request, port)
    | Get(id: ContainerId)
    | Stop(id: ContainerId)

  /** The controller's state: the `containers` dict (a map, and its insertion
      order), the catalog, and the calls made so far. */
  datatype FleetState = FleetState(
    containers: map<ContainerId, Container>,
    order: seq<ContainerId>,
    catalog: Catalog,
    log: seq<Event>)

  /** The answer to a game request: the port, or the error it is rejected with. */
  datatype Outcome =
    | Launched(port: int)                          // 201
    | InvalidVersion(supported: seq<Version>)      // 400, version text does not parse
    | TooManyServers                               // 429
    | NoMinimumVersion                             // comparison with an absent minimum raises
    | UpgradeRequired(supported: seq<Version>)     // 426
    | UnsupportedVersion(supported: seq<Version>)  // 400, not in the catalog after a refresh
    | LaunchFailed                                 // every run attempt failed

  /** The answers of the outside world during one request. */
  datatype Env = Env(
    reload: ContainerId -> ReloadResult,
    registry: RegistryResponse,
    freePort: nat -> int,
    run: nat -> RunOutcome)

  predicate Distinct(ids: seq<ContainerId>) {
    forall i, j | 0 <= i < j < |ids| :: ids[i] != ids[j]
  }

  /** The dict's keys are its insertion order without repeats, every entry is
      keyed by its container's id, and the catalog is consistent. */
  ghost predicate WellFormed(w: FleetState) {
    && Distinct(w.order)
    && (forall id :: id in w.containers <==> id in w.order)
    && (forall id | id in w.containers :: w.containers[id].id == id)
    && Consistent(w.catalog)
  }

  /** The state at process start: nothing tracked, an empty catalog. */
  function Initial(): (w: FleetState)
    ensures WellFormed(w)
  {
    FleetState(map[], [], Catalog([], None), [])
  }

  // ---------------------------------------------------------------------------
  // Counting calls in the log

  datatype EventKind = FetchKind | RunKind

  predicate IsKind(e: Event, kind: EventKind) {
    match kind
    case FetchKind => e.FetchTags?
    case RunKind => e.Run?
  }

  /** How many calls of one kind the log holds. */
  function Occurrences(log: seq<Event>, kind: EventKind): nat {
    if log == [] then 0
    else Occurrences(log[..|log| - 1], kind) + (if IsKind(log[|log| - 1], kind) then 1 else 0)
  }

  lemma OccurrencesSingle(e: Event, kind: EventKind)
    ensures Occurrences([e], kind) == if IsKind(e, kind) then 1 else 0
  {
    assert [e][..0] == [];
  }

  lemma {:induction false} OccurrencesAppend(a: seq<Event>, b: seq<Event>, kind: EventKind)
    ensures Occurrences(a + b, kind) == Occurrences(a, kind) + Occurrences(b, kind)
  {
    if b == [] {
      assert a + b == a;
    } else {
      assert (a + b)[..|a + b| - 1] == a + b[..|b| - 1];
      OccurrencesAppend(a, b[..|b| - 1], kind);
    }
  }

  lemma {:induction false} OccurrencesAbsent(log: seq<Event>, kind: EventKind)
    requires forall i | 0 <= i < |log| :: !IsKind(log[i], kind)
    ensures Occurrences(log, kind) == 0
  {
    if log != [] {
      OccurrencesAbsent(log[..|log| - 1], kind);
    }
  }

  // ---------------------------------------------------------------------------
  // Catalog refresh

  /** One registry query for the latest tags, and the catalog it leaves. */
  function Refresh(w: FleetState, user: string, repo: string, response: RegistryResponse): FleetState {
    w.(catalog := Refreshed(w.catalog, response),
       log := w.log + [FetchTags(user, repo, MAX_TAGS)])
  }

  // ---------------------------------------------------------------------------
  // Reconciliation

  /** A container stays tracked only if its reload succeeded with "running". */
  predicate Survives(r: ReloadResult) {
    r == Status("running")
  }

  /** The ids of `ids` that survive their reload, in order. */
  function Pruned(ids: seq<ContainerId>, reload: ContainerId -> ReloadResult): seq<ContainerId> {
    if ids == [] then []
    else
      var last := ids[|ids| - 1];
      Pruned(ids[..|ids| - 1], reload) + (if Survives(reload(last)) then [last] else [])
  }

  /** One reload per id, in order. */
  function ReloadEvents(ids: seq<ContainerId>): (events: seq<Event>)
    ensures |events| == |ids|
    ensures forall i | 0 <= i < |ids| :: events[i] == Reload(ids[i])
  {
    if ids == [] then [] else ReloadEvents(ids[..|ids| - 1]) + [Reload(ids[|ids| - 1])]
  }

  lemma {:induction false} PrunedMembers(ids: seq<ContainerId>, reload: ContainerId -> ReloadResult, id: ContainerId)
    ensures id in Pruned(ids, reload) <==> id in ids && Survives(reload(id))
  {
    if ids != [] {
      var init := ids[..|ids| - 1];
      PrunedMembers(init, reload, id);
      assert ids == init + [ids[|ids| - 1]];
    }
  }

  lemma {:induction false} PrunedDistinct(ids: seq<ContainerId>, reload: ContainerId -> ReloadResult)
    requires Distinct(ids)
    ensures Distinct(Pruned(ids, reload))
  {
    if ids != [] {
      var init := ids[..|ids| - 1];
      var last := ids[|ids| - 1];
      PrunedDistinct(init, reload);
      PrunedMembers(init, reload, last);
      assert last !in init;
    }
  }

  /** The state after `remove_stopped_containers`: every tracked container is
      reloaded once, in dict order, and those not running are dropped. */
  function Reconciled(w: FleetState, reload: ContainerId -> ReloadResult): (w': FleetState)
    ensures w'.containers.Keys <= w.containers.Keys
    ensures forall id | id in w'.containers :: Survives(reload(id)) && w'.containers[id] == w.containers[id]
    ensures forall id | id in w.containers && id !in w'.containers :: !Survives(reload(id))
    ensures |w'.containers| <= |w.containers|
    ensures w'.catalog == w.catalog
  {
    var kept := map id | id in w.containers && Survives(reload(id)) :: w.containers[id];
    assert w.containers.Keys == kept.Keys + (w.containers.Keys - kept.Keys);
    w.(containers := kept,
       order := Pruned(w.order, reload),
       log := w.log + ReloadEvents(w.order))
  }

  lemma ReconciledWellFormed(w: FleetState, reload: ContainerId -> ReloadResult)
    requires WellFormed(w)
    ensures WellFormed(Reconciled(w, reload))
  {
    PrunedDistinct(w.order, reload);
    forall id {
      PrunedMembers(w.order, reload, id);
    }
  }

  // ---------------------------------------------------------------------------
  // Registration and creation

  /** `containers[container.id] = container`: a new id goes to the end of the
      dict's order, an existing one keeps its place. */
  function Registered(w: FleetState, c: Container): (w': FleetState)
    ensures w'.containers.Keys == w.containers.Keys + {c.id}
    ensures w'.containers[c.id] == c
    ensures forall id | id in w.containers && id != c.id :: w'.containers[id] == w.containers[id]
    ensures w'.catalog == w.catalog && w'.log == w.log
  {
    w.(containers := w.containers[c.id := c],
       order := if c.id in w.containers then w.order else w.order + [c.id])
  }

  lemma RegisteredWellFormed(w: FleetState, c: Container)
    requires WellFormed(w)
    ensures WellFormed(Registered(w, c))
  {
  }

  /** The calls of one failed attempt: its run, and a fresh pull of the
      catalog's images when the image was missing. */
  function AttemptEvents(request: GameRequest, port: int, outcome: RunOutcome, tags: seq<Version>): seq<Event> {
    [Run(request, port)] + (if outcome.ImageNotFound? then [Pull(IMAGE_NAME, tags)] else [])
  }

  lemma AttemptEventsCalls(request: GameRequest, port: int, outcome: RunOutcome, tags: seq<Version>,
                           kind: EventKind)
    ensures Occurrences(AttemptEvents(request, port, outcome, tags), kind) == if kind == RunKind then 1 else 0
  {
    var events, run := AttemptEvents(request, port, outcome, tags), Run(request, port);
    OccurrencesSingle(run, kind);
    if outcome.ImageNotFound? {
      assert events == [run] + [Pull(IMAGE_NAME, tags)];
      OccurrencesSingle(Pull(IMAGE_NAME, tags), kind);
      OccurrencesAppend([run], [Pull(IMAGE_NAME, tags)], kind);
    } else {
      assert events == [run];
    }
  }

  /** The calls of attempts 0 .. n-1 when none of them started a container. */
  function FailedAttempts(request: GameRequest, tags: seq<Version>, freePort: nat -> int,
                          run: nat -> RunOutcome, n: nat): seq<Event>
  {
    if n == 0 then []
    else
      FailedAttempts(request, tags, freePort, run, n - 1)
      + AttemptEvents(request, freePort(n - 1), run(n - 1), tags)
  }

  lemma {:induction false} FailedAttemptsCalls(request: GameRequest, tags: seq<Version>,
                                               freePort: nat -> int, run: nat -> RunOutcome, n: nat,
                                               kind: EventKind)
    ensures Occurrences(FailedAttempts(request, tags, freePort, run, n), kind) == if kind == RunKind then n else 0
  {
    if n > 0 {
      var prev := FailedAttempts(request, tags, freePort, run, n - 1);
      FailedAttemptsCalls(request, tags, freePort, run, n - 1, kind);
      AttemptEventsCalls(request, freePort(n - 1), run(n - 1), tags, kind);
      OccurrencesAppend(prev, AttemptEvents(request, freePort(n - 1), run(n - 1), tags), kind);
    }
  }

  /** `create_server`: pull the catalog's images, then try up to
      MAX_CONTAINER_RETRIES runs; the first that starts is registered and its
      port returned, and if none starts nothing is registered. */
  function Create(w: FleetState, request: GameRequest, freePort: nat -> int, run: nat -> RunOutcome)
    : (Option<int>, FleetState)
  {
    var pulled := w.log + [Pull(IMAGE_NAME, w.catalog.tags)];
    match FirstStarted(run, 0)
    case None =>
      (None, w.(log := pulled + FailedAttempts(request, w.catalog.tags, freePort, run, MAX_CONTAINER_RETRIES)))
    case Some(k) =>
      var tried := w.(log := pulled + FailedAttempts(request, w.catalog.tags, freePort, run, k)
                                    + [Run(request, freePort(k))]);
      (Some(freePort(k)), Registered(tried, Container(run(k).id, SpecFor(request, freePort(k)))))
  }

  /** Creation only appends to the log. */
  lemma CreateExtendsLog(w: FleetState, request: GameRequest, freePort: nat -> int, run: nat -> RunOutcome)
    ensures w.log <= Create(w, request, freePort, run).1.log
  {
  }

  /** Creation makes one run call per attempt, so at most MAX_CONTAINER_RETRIES
      of them, exactly that many when every attempt fails; it never queries
      the registry. */
  lemma CreateCalls(w: FleetState, request: GameRequest, freePort: nat -> int, run: nat -> RunOutcome,
                    kind: EventKind)
    ensures var (port, w') := Create(w, request, freePort, run);
      Occurrences(w'.log, kind) == Occurrences(w.log, kind) +
           if kind == FetchKind then 0
           else if port.Some? then FirstStarted(run, 0).value + 1
           else MAX_CONTAINER_RETRIES
  {
    var pull := Pull(IMAGE_NAME, w.catalog.tags);
    var pulled := w.log + [pull];
    OccurrencesSingle(pull, kind);
    OccurrencesAppend(w.log, [pull], kind);
    match FirstStarted(run, 0)
    case None =>
      var attempts := FailedAttempts(request, w.catalog.tags, freePort, run, MAX_CONTAINER_RETRIES);
      FailedAttemptsCalls(request, w.catalog.tags, freePort, run, MAX_CONTAINER_RETRIES, kind);
      OccurrencesAppend(pulled, attempts, kind);
    case Some(k) =>
      var attempts := FailedAttempts(request, w.catalog.tags, freePort, run, k);
      FailedAttemptsCalls(request, w.catalog.tags, freePort, run, k, kind);
      OccurrencesAppend(pulled, attempts, kind);
      OccurrencesSingle(Run(request, freePort(k)), kind);
      OccurrencesAppend(pulled + attempts, [Run(request, freePort(k))], kind);
  }

  /** Creation registers exactly the first started container, keyed by its id,
      with the port of that attempt, or changes no container at all when no
      attempt starts one; the catalog is left alone. */
  lemma CreateRegistersFirstStarted(w: FleetState, request: GameRequest, freePort: nat -> int,
                                    run: nat -> RunOutcome)
    ensures var (port, w') := Create(w, request, freePort, run);
      && w'.catalog == w.catalog
      && (port.None? <==> forall j | 0 <= j < MAX_CONTAINER_RETRIES :: !run(j).Started?)
      && (port.None? ==> w'.containers == w.containers && w'.order == w.order)
      && (port.Some? ==>
            var k := FirstStarted(run, 0).value;
            var id := run(k).id;
            && port.value == freePort(k)
            && w'.containers == w.containers[id := Container(id, SpecFor(request, freePort(k)))])
  {
  }

  lemma CreateWellFormed(w: FleetState, request: GameRequest, freePort: nat -> int, run: nat -> RunOutcome)
    requires WellFormed(w)
    ensures WellFormed(Create(w, request, freePort, run).1)
  {
    match FirstStarted(run, 0)
    case None =>
    case Some(k) =>
      var tried := w.(log := w.log + [Pull(IMAGE_NAME, w.catalog.tags)]
                             + FailedAttempts(request, w.catalog.tags, freePort, run, k)
                             + [Run(request, freePort(k))]);
      RegisteredWellFormed(tried, Container(run(k).id, SpecFor(request, freePort(k))));
  }

  // ---------------------------------------------------------------------------
  // Shutdown

  /** `stop_server(id)`: look the container up; stop it only if it was found. */
  function StopServerEvents(id: ContainerId, found: ContainerId -> bool): seq<Event> {
    [Get(id)] + (if found(id) then [Stop(id)] else [])
  }

  function StopEvents(ids: seq<ContainerId>, found: ContainerId -> bool): seq<Event> {
    if ids == [] then []
    else StopEvents(ids[..|ids| - 1], found) + StopServerEvents(ids[|ids| - 1], found)
  }

  /** The ids looked up in the runtime, in order. */
  function LookedUp(log: seq<Event>): seq<ContainerId> {
    if log == [] then []
    else LookedUp(log[..|log| - 1]) + (if log[|log| - 1].Get? then [log[|log| - 1].id] else [])
  }

  lemma {:induction false} LookedUpAppend(a: seq<Event>, b: seq<Event>)
    ensures LookedUp(a + b) == LookedUp(a) + LookedUp(b)
  {
    if b == [] {
      assert a + b == a;
    } else {
      assert (a + b)[..|a + b| - 1] == a + b[..|b| - 1];
      LookedUpAppend(a, b[..|b| - 1]);
    }
  }

  lemma LookedUpSingle(e: Event)
    ensures LookedUp([e]) == if e.Get? then [e.id] else []
  {
    assert [e][..0] == [];
  }

  /** Shutdown looks up exactly the given ids, in their order. */
  lemma {:induction false} StopEventsLookUp(ids: seq<ContainerId>, found: ContainerId -> bool)
    ensures LookedUp(StopEvents(ids, found)) == ids
  {
    if ids != [] {
      var init := ids[..|ids| - 1];
      var last := ids[|ids| - 1];
      StopEventsLookUp(init, found);
      var rest: seq<Event> := if found(last) then [Stop(last)] else [];
      LookedUpSingle(Get(last));
      LookedUpAppend([Get(last)], rest);
      if found(last) {
        LookedUpSingle(Stop(last));
      }
      LookedUpAppend(StopEvents(init, found), StopServerEvents(last, found));
      assert ids == init + [last];
    }
  }

  /** Shutdown stops exactly the given ids that the runtime still finds. */
  lemma {:induction false} StopEventsStop(ids: seq<ContainerId>, found: ContainerId -> bool, id: ContainerId)
    ensures Stop(id) in StopEvents(ids, found) <==> id in ids && found(id)
  {
    if ids != [] {
      var init := ids[..|ids| - 1];
      var last := ids[|ids| - 1];
      StopEventsStop(init, found, id);
      var one := StopServerEvents(last, found);
      assert Stop(id) in one <==> id == last && found(last);
      assert ids == init + [last];
    }
  }

  lemma {:induction false} DistinctMultiplicity(ids: seq<ContainerId>, id: ContainerId)
    requires Distinct(ids)
    ensures multiset(ids)[id] == if id in ids then 1 else 0
  {
    if ids != [] {
      var init := ids[..|ids| - 1];
      var last := ids[|ids| - 1];
      DistinctMultiplicity(init, id);
      assert ids == init + [last];
      assert last !in init;
    }
  }

  /** `stop_all_servers`: one `stop_server` per tracked container, in dict order. */
  function StopAll(w: FleetState, found: ContainerId -> bool): FleetState {
    w.(log := w.log + StopEvents(w.order, found))
  }

  /** Shutdown looks every tracked container up exactly once and nothing else,
      stops exactly the ones the runtime still finds, swallows the rest, and
      leaves the tracked containers as they are. */
  lemma StopAllLooksUpEachOnce(w: FleetState, found: ContainerId -> bool)
    requires WellFormed(w)
    ensures var w' := StopAll(w, found);
      && w'.containers == w.containers && w'.order == w.order && w'.catalog == w.catalog
      && w.log <= w'.log
      && (forall id :: multiset(LookedUp(w'.log[|w.log|..]))[id] == if id in w.containers then 1 else 0)
      && (forall id :: Stop(id) in w'.log[|w.log|..] <==> id in w.containers && found(id))
  {
    var events := StopEvents(w.order, found);
    assert StopAll(w, found).log[|w.log|..] == events;
    StopEventsLookUp(w.order, found);
    forall id
      ensures multiset(LookedUp(events))[id] == if id in w.containers then 1 else 0
      ensures Stop(id) in events <==> id in w.containers && found(id)
    {
      DistinctMultiplicity(w.order, id);
      StopEventsStop(w.order, found, id);
    }
  }

  // ---------------------------------------------------------------------------
  // A game request

  /** `request_game`: parse the version, reconcile, check capacity, check the
      minimum, refresh at most once when the version is not in the catalog,
      then create the container. The first failing check decides. */
  function Request(w: FleetState, request: GameRequest, env: Env): (Outcome, FleetState) {
    match Parse(request.version)
    case None => (InvalidVersion(w.catalog.tags), w)
    case Some(v) =>
      var w1 := Reconciled(w, env.reload);
      if |w1.containers| >= MAX_RUNNING_SERVERS then (TooManyServers, w1)
      else if w1.catalog.minimum.None? then (NoMinimumVersion, w1)
      else if Less(v, w1.catalog.minimum.value) then (UpgradeRequired(w1.catalog.tags), w1)
      else
        var w2 := Gated(w1, v, env.registry);
        if v !in w2.catalog.tags then (UnsupportedVersion(w2.catalog.tags), w2)
        else
          var (port, w3) := Create(w2, request, env.freePort, env.run);
          (if port.Some? then Launched(port.value) else LaunchFailed, w3)
  }

  /** An unparseable version is rejected before anything else happens. */
  lemma UnparseableRejectedFirst(w: FleetState, request: GameRequest, env: Env)
    requires Parse(request.version).None?
    ensures Request(w, request, env) == (InvalidVersion(w.catalog.tags), w)
  {
  }

  /** The catalog the version gate ends with: refreshed only if the version is missing. */
  function Gated(w1: FleetState, v: Version, registry: RegistryResponse): FleetState {
    if v in w1.catalog.tags then w1 else Refresh(w1, DOCKER_USER, DOCKER_REPO, registry)
  }

  lemma GatedFacts(w1: FleetState, v: Version, registry: RegistryResponse, kind: EventKind)
    requires WellFormed(w1)
    ensures var w2 := Gated(w1, v, registry);
      && WellFormed(w2)
      && w2.containers == w1.containers && w2.order == w1.order
      && w1.log <= w2.log
      && Occurrences(w2.log, kind) == Occurrences(w1.log, kind) +
           if kind == FetchKind && v !in w1.catalog.tags then 1 else 0
  {
    RefreshedConsistent(w1.catalog, registry);
    var fetch := FetchTags(DOCKER_USER, DOCKER_REPO, MAX_TAGS);
    OccurrencesSingle(fetch, kind);
    OccurrencesAppend(w1.log, [fetch], kind);
  }

  lemma ReloadEventsNoCalls(ids: seq<ContainerId>, kind: EventKind)
    ensures Occurrences(ReloadEvents(ids), kind) == 0
  {
    OccurrencesAbsent(ReloadEvents(ids), kind);
  }

  /** Reconciliation adds reload calls only. */
  lemma ReconciledCalls(w: FleetState, reload: ContainerId -> ReloadResult, kind: EventKind)
    ensures Occurrences(Reconciled(w, reload).log, kind) == Occurrences(w.log, kind)
  {
    ReloadEventsNoCalls(w.order, kind);
    OccurrencesAppend(w.log, ReloadEvents(w.order), kind);
  }

  /** A parseable request first reloads every tracked container, and the
      capacity test is made on what reconciliation left. */
  lemma ReconcileBeforeCapacity(w: FleetState, request: GameRequest, env: Env)
    requires Parse(request.version).Some?
    ensures var (outcome, w') := Request(w, request, env);
      && w.log + ReloadEvents(w.order) <= w'.log
      && (outcome == TooManyServers <==> |Reconciled(w, env.reload).containers| >= MAX_RUNNING_SERVERS)
  {
    var v := Parse(request.version).value;
    var w1 := Reconciled(w, env.reload);
    var w' := Request(w, request, env).1;
    if |w1.containers| >= MAX_RUNNING_SERVERS || w1.catalog.minimum.None?
       || Less(v, w1.catalog.minimum.value) {
      assert w' == w1;
    } else {
      var w2 := Gated(w1, v, env.registry);
      assert w1.log <= w2.log;
      if v !in w2.catalog.tags {
        assert w' == w2;
      } else {
        CreateExtendsLog(w2, request, env.freePort, env.run);
        assert w' == Create(w2, request, env.freePort, env.run).1;
      }
    }
  }

  /** The first failing check decides the answer, and each rejection happens
      exactly when its check is the first to fail: parsing, then capacity
      after reconciliation, then the minimum, then membership in the catalog
      as it stands after the refresh, if one was due. */
  lemma FirstFailingCheckDecides(w: FleetState, request: GameRequest, env: Env)
    ensures var outcome, parsed := Request(w, request, env).0, Parse(request.version);
      var fleet, min := |Reconciled(w, env.reload).containers|, w.catalog.minimum;
      && (outcome.InvalidVersion? <==> parsed.None?)
      && (outcome == TooManyServers <==> parsed.Some? && fleet >= MAX_RUNNING_SERVERS)
      && (outcome == NoMinimumVersion <==>
            parsed.Some? && fleet < MAX_RUNNING_SERVERS && min.None?)
      && (outcome.UpgradeRequired? <==>
            parsed.Some? && fleet < MAX_RUNNING_SERVERS && min.Some? && Less(parsed.value, min.value))
      && (outcome.UnsupportedVersion? <==>
            && parsed.Some? && fleet < MAX_RUNNING_SERVERS && min.Some? && !Less(parsed.value, min.value)
            && parsed.value !in w.catalog.tags
            && parsed.value !in Refreshed(w.catalog, env.registry).tags)
  {
  }

  /** With minimum 1.2.0 (catalog 1.2.0, 1.2.1, 1.3.0), a request for 1.1.9
      must upgrade, while 1.2.0 passes the minimum and, being in the catalog,
      goes on to creation without querying the registry. */
  lemma MinimumVersionExample(env: Env)
    ensures var w := ExampleFleet();
      && Request(w, GameRequest("racer", false, "1.1.9"), env).0 == UpgradeRequired(w.catalog.tags)
      && var (outcome, w') := Request(w, GameRequest("racer", false, "1.2.0"), env);
         && (outcome.Launched? || outcome == LaunchFailed)
         && Occurrences(w'.log, FetchKind) == 0
  {
    var outdated := Version(1, 1, 9);
    ParseFormat(outdated);
    assert Format(outdated) == "1.1.9";
    MinimumVersionAdmitted(env);
  }

  /** The fleet of the example above: nothing running, three published
      versions, minimum 1.2.0. */
  function ExampleFleet(): (w: FleetState)
    ensures WellFormed(w) && w.catalog.minimum == Some(Version(1, 2, 0))
  {
    FleetState(map[], [], Catalog([Version(1, 2, 0), Version(1, 2, 1), Version(1, 3, 0)], Some(Version(1, 2, 0))), [])
  }

  /** The minimum itself is admitted without querying the registry. */
  lemma MinimumVersionAdmitted(env: Env)
    ensures var (outcome, w') := Request(ExampleFleet(), GameRequest("racer", false, "1.2.0"), env);
      && (outcome.Launched? || outcome == LaunchFailed)
      && Occurrences(w'.log, FetchKind) == 0
  {
    var current := Version(1, 2, 0);
    ParseFormat(current);
    assert Format(current) == "1.2.0";
    RefreshAtMostOnce(ExampleFleet(), GameRequest("racer", false, "1.2.0"), env);
  }

  /** The registry is queried during a request only when the version passed
      every earlier check and is missing from the catalog. */
  predicate RefreshDue(w: FleetState, request: GameRequest, env: Env) {
    && Parse(request.version).Some?
    && var v := Parse(request.version).value;
    && |Reconciled(w, env.reload).containers| < MAX_RUNNING_SERVERS
    && w.catalog.minimum.Some?
    && !Less(v, w.catalog.minimum.value)
    && v !in w.catalog.tags
  }

  /** A request queries the registry at most once: exactly once when the
      refresh is due, never otherwise; after that query the request is
      rejected as unsupported iff the version is still missing. */
  lemma RefreshAtMostOnce(w: FleetState, request: GameRequest, env: Env)
    requires WellFormed(w)
    ensures var (outcome, w') := Request(w, request, env);
      && Occurrences(w'.log, FetchKind) <= Occurrences(w.log, FetchKind) + 1
      && (Occurrences(w'.log, FetchKind) == Occurrences(w.log, FetchKind) + 1 <==> RefreshDue(w, request, env))
      && (RefreshDue(w, request, env) ==>
            (outcome.UnsupportedVersion? <==>
               Parse(request.version).value !in Refreshed(w.catalog, env.registry).tags))
  {
    if Parse(request.version).Some? {
      var v := Parse(request.version).value;
      var w1 := Reconciled(w, env.reload);
      ReconciledWellFormed(w, env.reload);
      ReconciledCalls(w, env.reload, FetchKind);
      GatedFacts(w1, v, env.registry, FetchKind);
      CreateCalls(Gated(w1, v, env.registry), request, env.freePort, env.run, FetchKind);
    }
  }

  /** A rejected request starts no container and adds no tracked container. */
  lemma RejectionLaunchesNothing(w: FleetState, request: GameRequest, env: Env)
    requires WellFormed(w)
    ensures var (outcome, w') := Request(w, request, env);
      (!outcome.Launched? && !outcome.LaunchFailed?) ==>
        && Occurrences(w'.log, RunKind) == Occurrences(w.log, RunKind)
        && w'.containers.Keys <= w.containers.Keys
  {
    if Parse(request.version).Some? {
      var v := Parse(request.version).value;
      var w1 := Reconciled(w, env.reload);
      ReconciledWellFormed(w, env.reload);
      ReconciledCalls(w, env.reload, RunKind);
      GatedFacts(w1, v, env.registry, RunKind);
    }
  }

  /** A launched game runs a version of the catalog that is not below its
      minimum, and the fleet is still within capacity afterwards. */
  lemma LaunchIsAdmissible(w: FleetState, request: GameRequest, env: Env)
    requires WellFormed(w)
    ensures var (outcome, w') := Request(w, request, env);
      outcome.Launched? ==>
        && Parse(request.version).Some?
        && var v := Parse(request.version).value;
        && v in w'.catalog.tags
        && w'.catalog.minimum.Some? && LessEq(w'.catalog.minimum.value, v)
        && |w'.containers| <= MAX_RUNNING_SERVERS
  {
    var (outcome, w') := Request(w, request, env);
    if outcome.Launched? {
      var v := Parse(request.version).value;
      var w1 := Reconciled(w, env.reload);
      assert |w1.containers| < MAX_RUNNING_SERVERS;
      ReconciledWellFormed(w, env.reload);
      var w2 := Gated(w1, v, env.registry);
      GatedFacts(w1, v, env.registry, RunKind);
      assert v in w2.catalog.tags && Consistent(w2.catalog);
      assert w' == Create(w2, request, env.freePort, env.run).1;
      CreateRegistersFirstStarted(w2, request, env.freePort, env.run);
      var id := env.run(FirstStarted(env.run, 0).value).id;
      assert w'.containers.Keys == w2.containers.Keys + {id};
      assert |w'.containers| <= |w2.containers| + 1 by {
        assert |w2.containers.Keys + {id}| <= |w2.containers.Keys| + 1;
      }
    }
  }

  /** A launched game is the container of the first attempt that started:
      its port is returned, and it is added under the id the runtime gave it,
      with the arguments for this request and that port, to the containers
      left by reconciliation, from the image of exactly the requested version. */
  lemma LaunchRunsRequestedImage(w: FleetState, request: GameRequest, env: Env)
    ensures var (outcome, w') := Request(w, request, env);
      outcome.Launched? ==>
        && Parse(request.version).Some?
        && FirstStarted(env.run, 0).Some?
        && var k := FirstStarted(env.run, 0).value;
        && var id := env.run(k).id;
        && outcome.port == env.freePort(k)
        && w'.containers
           == Reconciled(w, env.reload).containers[id := Container(id, SpecFor(request, outcome.port))]
        && SpecFor(request, outcome.port).image == IMAGE_NAME + ":" + Format(Parse(request.version).value)
  {
    var (outcome, w') := Request(w, request, env);
    if outcome.Launched? {
      var v := Parse(request.version).value;
      var w2 := Gated(Reconciled(w, env.reload), v, env.registry);
      CreateRegistersFirstStarted(w2, request, env.freePort, env.run);
      FormatParse(request.version);
    }
  }

  lemma RequestWellFormed(w: FleetState, request: GameRequest, env: Env)
    requires WellFormed(w)
    ensures WellFormed(Request(w, request, env).1)
  {
    if Parse(request.version).Some? {
      var v := Parse(request.version).value;
      var w1 := Reconciled(w, env.reload);
      ReconciledWellFormed(w, env.reload);
      GatedFacts(w1, v, env.registry, RunKind);
      CreateWellFormed(Gated(w1, v, env.registry), request, env.freePort, env.run);
    }
  }

  // ---------------------------------------------------------------------------
  // Lifespan

  /** Startup: refresh the catalog, then pull the images of the versions it
      now holds. */
  function Boot(w: FleetState, response: RegistryResponse): FleetState {
    var refreshed := Refresh(w, DOCKER_USER, DOCKER_REPO, response);
    refreshed.(log := refreshed.log + [Pull(IMAGE_NAME, refreshed.catalog.tags)])
  }

  /** Requests handled one after another. */
  function Serve(w: FleetState, batch: seq<(GameRequest, Env)>): (seq<Outcome>, FleetState) {
    if batch == [] then ([], w)
    else
      var (outcomes, w1) := Serve(w, batch[..|batch| - 1]);
      var (request, env) := batch[|batch| - 1];
      var (outcome, w2) := Request(w1, request, env);
      (outcomes + [outcome], w2)
  }

  /** Without a minimum version every request stops at the minimum check,
      before the refresh that could fill the catalog, so the catalog never
      changes and no game is ever launched. */
  lemma {:induction false} NoCatalogIsPermanent(w: FleetState, batch: seq<(GameRequest, Env)>)
    requires w.catalog.minimum.None?
    ensures var (outcomes, w') := Serve(w, batch);
      && w'.catalog == w.catalog
      && |outcomes| == |batch|
      && forall i | 0 <= i < |outcomes| :: !outcomes[i].Launched?
  {
    if batch != [] {
      NoCatalogIsPermanent(w, batch[..|batch| - 1]);
    }
  }

  /** If the registry does not answer 200 at startup, no game is launched for
      the rest of the process's life. */
  lemma FailedBootBlocksLaunches(response: RegistryResponse, batch: seq<(GameRequest, Env)>)
    requires response.status != 200
    ensures var (outcomes, _) := Serve(Boot(Initial(), response), batch);
      forall i | 0 <= i < |outcomes| :: !outcomes[i].Launched?
  {
    NoCatalogIsPermanent(Boot(Initial(), response), batch);
  }

  /** A request only appends to the record of calls. */
  lemma RequestExtendsLog(w: FleetState, request: GameRequest, env: Env)
    ensures w.log <= Request(w, request, env).1.log
  {
    if Parse(request.version).Some? {
      var v := Parse(request.version).value;
      var w1 := Reconciled(w, env.reload);
      assert w.log <= w1.log;
      if |w1.containers| < MAX_RUNNING_SERVERS && w1.catalog.minimum.Some? && !Less(v, w1.catalog.minimum.value) {
        var w2 := Gated(w1, v, env.registry);
        assert w1.log <= w2.log;
        CreateExtendsLog(w2, request, env.freePort, env.run);
      }
    }
  }

  /** Serving a batch answers every request, keeps the state well formed and
      only appends to the record of calls. */
  lemma {:induction false} ServeKeeps(w: FleetState, batch: seq<(GameRequest, Env)>)
    requires WellFormed(w)
    ensures var (outcomes, w') := Serve(w, batch);
      |outcomes| == |batch| && WellFormed(w') && w.log <= w'.log
  {
    if batch != [] {
      ServeKeeps(w, batch[..|batch| - 1]);
      var w1 := Serve(w, batch[..|batch| - 1]).1;
      var (request, env) := batch[|batch| - 1];
      RequestWellFormed(w1, request, env);
      RequestExtendsLog(w1, request, env);
    }
  }

  /** `lifespan`: startup, the requests served while the application runs,
      then shutdown. */
  function Lifespan(response: RegistryResponse, batch: seq<(GameRequest, Env)>, found: ContainerId -> bool)
    : (seq<Outcome>, FleetState)
  {
    var (outcomes, served) := Serve(Boot(Initial(), response), batch);
    (outcomes, StopAll(served, found))
  }

  /** Over the whole life of the process, the registry query and the pull of
      its catalog come first, every request is answered, and shutdown comes
      last: it looks up exactly the containers still tracked after the last
      request, once each, and stops those the runtime still finds. */
  lemma LifespanOrder(response: RegistryResponse, batch: seq<(GameRequest, Env)>, found: ContainerId -> bool)
    ensures var booted := Boot(Initial(), response);
      var served := Serve(booted, batch).1;
      var (outcomes, w') := Lifespan(response, batch, found);
      && |outcomes| == |batch|
      && [FetchTags(DOCKER_USER, DOCKER_REPO, MAX_TAGS), Pull(IMAGE_NAME, booted.catalog.tags)] <= served.log <= w'.log
      && w'.containers == served.containers
      && (forall id :: multiset(LookedUp(w'.log[|served.log|..]))[id] == if id in served.containers then 1 else 0)
      && (forall id :: Stop(id) in w'.log[|served.log|..] <==> id in served.containers && found(id))
  {
    var booted := Boot(Initial(), response);
    RefreshedConsistent(Initial().catalog, response);
    assert WellFormed(booted);
    ServeKeeps(booted, batch);
    var served := Serve(booted, batch).1;
    StopAllLooksUpEachOnce(served, found);
  }
}
