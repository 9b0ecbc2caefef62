/** The controller's module-level state and the operations that update it in
    place, each proved to have exactly the effect its `Fleet` function
    describes. */
module Manager {

  import opened Options
  import opened Versions
  import opened Catalog
  import opened Launch
  import opened Fleet

  /** The entries of `m` still tracked after reconciling the ids in `seen`. */
  ghost function Kept(m: map<ContainerId, Container>, seen: seq<ContainerId>,
                      reload: ContainerId -> ReloadResult): map<ContainerId, Container>
  {
    map id | id in m && (id !in seen || Survives(reload(id))) :: m[id]
  }

  /** The state after `remove_stopped_containers` has reconciled the first
      `i` ids of the snapshot `w.order`. */
  ghost function Pass(w: FleetState, i: nat, reload: ContainerId -> ReloadResult): FleetState
    requires i <= |w.order|
  {
    w.(containers := Kept(w.containers, w.order[..i], reload),
       order := Pruned(w.order[..i], reload) + w.order[i..],
       log := w.log + ReloadEvents(w.order[..i]))
  }

  /** Before the pass nothing has changed. */
  lemma PassStart(w: FleetState, reload: ContainerId -> ReloadResult)
    ensures Pass(w, 0, reload) == w
  {
    assert w.order[..0] == [];
    assert Kept(w.containers, [], reload) == w.containers;
  }

  /** Removing the entry right after the prefix `p` leaves `p` and the rest. */
  lemma RemoveAfter(p: seq<ContainerId>, s: seq<ContainerId>)
    requires s != []
    ensures (p + s)[..|p|] + (p + s)[|p| + 1..] == p + s[1..]
    ensures p + s == (p + [s[0]]) + s[1..]
  {
    assert (p + s)[..|p|] == p;
    assert (p + s)[|p| + 1..] == s[1..];
  }

  /** Where the next id of the snapshot stands before its step: still tracked,
      keyed by itself, at position `k` of the dict's order. */
  lemma PassNext(w: FleetState, i: nat, reload: ContainerId -> ReloadResult)
    requires WellFormed(w) && i < |w.order|
    ensures var p, id, k := Pass(w, i, reload), w.order[i], |Pruned(w.order[..i], reload)|;
      && id in p.containers && p.containers[id].id == id
      && k < |p.order| && p.order[k] == id
      && |Pruned(w.order[..i + 1], reload)| == (if Survives(reload(id)) then k + 1 else k)
  {
    var ids := w.order;
    assert ids[..i + 1][..i] == ids[..i];
    assert ids[i] !in ids[..i];
  }

  /** The order after one more id: a kept id stays in place, a dropped one
      is cut out right after the ids kept before it. */
  lemma PrunedStep(ids: seq<ContainerId>, i: nat, reload: ContainerId -> ReloadResult)
    requires i < |ids|
    ensures var before, k := Pruned(ids[..i], reload) + ids[i..], |Pruned(ids[..i], reload)|;
      && k < |before|
      && Pruned(ids[..i + 1], reload) + ids[i + 1..]
         == if Survives(reload(ids[i])) then before else before[..k] + before[k + 1..]
  {
    var pre := Pruned(ids[..i], reload);
    assert ids[..i + 1][..i] == ids[..i];
    assert ids[i..] == [ids[i]] + ids[i + 1..];
    RemoveAfter(pre, ids[i..]);
  }

  /** A running container stays: the step only logs the reload. */
  lemma PassKeeps(w: FleetState, i: nat, reload: ContainerId -> ReloadResult)
    requires WellFormed(w) && i < |w.order| && Survives(reload(w.order[i]))
    ensures var p := Pass(w, i, reload);
      Pass(w, i + 1, reload) == p.(log := p.log + [Reload(w.order[i])])
  {
    var ids, id := w.order, w.order[i];
    assert ids[..i + 1] == ids[..i] + [id];
    PrunedStep(ids, i, reload);
    KeptStep(w.containers, ids[..i], id, reload);
  }

  /** Any other container is popped from the dict, at its position `k`. */
  lemma PassDrops(w: FleetState, i: nat, reload: ContainerId -> ReloadResult)
    requires WellFormed(w) && i < |w.order| && !Survives(reload(w.order[i]))
    ensures var p, id, k := Pass(w, i, reload), w.order[i], |Pruned(w.order[..i], reload)|;
      && k < |p.order|
      && Pass(w, i + 1, reload)
         == p.(containers := p.containers - {id},
               order := p.order[..k] + p.order[k + 1..],
               log := p.log + [Reload(id)])
  {
    var ids, id := w.order, w.order[i];
    assert ids[..i + 1] == ids[..i] + [id];
    PrunedStep(ids, i, reload);
    KeptStep(w.containers, ids[..i], id, reload);
  }

  lemma KeptStep(m: map<ContainerId, Container>, seen: seq<ContainerId>, id: ContainerId,
                 reload: ContainerId -> ReloadResult)
    ensures Kept(m, seen + [id], reload)
            == if Survives(reload(id)) then Kept(m, seen, reload) else Kept(m, seen, reload) - {id}
  {
  }

  /** Once every tracked id has been seen, the kept entries are the running ones. */
  lemma KeptAll(m: map<ContainerId, Container>, seen: seq<ContainerId>, reload: ContainerId -> ReloadResult)
    requires forall id | id in m :: id in seen
    ensures Kept(m, seen, reload) == map id | id in m && Survives(reload(id)) :: m[id]
  {
    var kept, running := Kept(m, seen, reload), map id | id in m && Survives(reload(id)) :: m[id];
    assert kept.Keys == running.Keys;
  }

  /** After the whole snapshot, the pass has computed `Reconciled`. */
  lemma PassComplete(w: FleetState, reload: ContainerId -> ReloadResult)
    requires WellFormed(w)
    ensures Pass(w, |w.order|, reload) == Reconciled(w, reload)
  {
    var n := |w.order|;
    assert w.order[..n] == w.order;
    assert w.order[n..] == [];
    assert Pruned(w.order, reload) + [] == Pruned(w.order, reload);
    KeptAll(w.containers, w.order, reload);
  }

  /** How `Create` ends when attempt `k` is the first to start a container. */
  lemma CreateStarted(w: FleetState, request: GameRequest, freePort: nat -> int,
                      run: nat -> RunOutcome, k: nat)
    requires WellFormed(w) && FirstStarted(run, 0) == Some(k)
    ensures var spec := SpecFor(request, freePort(k));
      && Create(w, request, freePort, run)
         == (Some(freePort(k)),
             Registered(w.(log := w.log + [Pull(IMAGE_NAME, w.catalog.tags)]
                                 + FailedAttempts(request, w.catalog.tags, freePort, run, k)
                                 + [Run(request, freePort(k))]),
                        Container(run(k).id, spec)))
      && WellFormed(Create(w, request, freePort, run).1)
  {
    CreateWellFormed(w, request, freePort, run);
  }

  /** How `Create` ends when no attempt starts a container. */
  lemma CreateExhausted(w: FleetState, request: GameRequest, freePort: nat -> int,
                        run: nat -> RunOutcome)
    requires WellFormed(w) && FirstStarted(run, 0) == None
    ensures Create(w, request, freePort, run)
            == (None, w.(log := w.log + [Pull(IMAGE_NAME, w.catalog.tags)]
                                + FailedAttempts(request, w.catalog.tags, freePort, run,
                                                 MAX_CONTAINER_RETRIES)))
    ensures WellFormed(Create(w, request, freePort, run).1)
  {
    CreateWellFormed(w, request, freePort, run);
  }

  class GameManager {
    var containers: map<ContainerId, Container>
    var order: seq<ContainerId>          // insertion order of `containers`
    var latestTags: seq<Version>
    var minSupportedTag: Option<Version>
    var log: seq<Event>                  // calls made to the registry and the runtime

    function State(): FleetState
      reads this
    {
      FleetState(containers, order, Catalog(latestTags, minSupportedTag), log)
    }

    ghost predicate Valid()
      reads this
    {
      WellFormed(State())
    }

    constructor ()
      ensures Valid() && State() == Initial()
    {
      containers := map[];
      order := [];
      latestTags := [];
      minSupportedTag := None;
      log := [];
    }

    /** `get_latest_image_tags`: query the registry; unless it answers 200,
        keep the catalog, otherwise replace both catalog fields together. */
    method GetLatestImageTags(user: string, repo: string, response: RegistryResponse)
      requires Valid()
      modifies this
      ensures Valid()
      ensures State() == Refresh(old(State()), user, repo, response)
    {
      log := log + [FetchTags(user, repo, MAX_TAGS)];
      if response.status != 200 {
        return;
      }
      var tags, minTag := ScanTags(response.names);
      latestTags, minSupportedTag := tags, minTag;
    }

    /** `check_images_pulled`: ask the runtime to pull every catalog version. */
    method CheckImagesPulled(image: string, tags: seq<Version>)
      requires Valid()
      modifies this
      ensures Valid()
      ensures State() == old(State()).(log := old(log) + [Pull(image, tags)])
    {
      log := log + [Pull(image, tags)];
    }

    /** `remove_stopped_containers`: reload each tracked container of a
        snapshot of the dict, and drop those not running or gone. */
    method RemoveStoppedContainers(reload: ContainerId -> ReloadResult)
      requires Valid()
      modifies this
      ensures Valid()
      ensures State() == Reconciled(old(State()), reload)
    {
      ghost var w := State();
      var snapshot := order;
      var kept := 0;
      PassStart(w, reload);
      for i := 0 to |snapshot|
        invariant State() == Pass(w, i, reload)
        invariant kept == |Pruned(w.order[..i], reload)|
      {
        kept := ReloadOne(w, i, snapshot[i], kept, reload);
      }
      PassComplete(w, reload);
      ReconciledWellFormed(w, reload);
    }

    /** The body of the loop of `remove_stopped_containers`: reload the
        container `w.order[i]` and pop it from the dict unless it is running;
        `kept` is its position in the dict's order. */
    method ReloadOne(ghost w: FleetState, ghost i: nat, id: ContainerId, kept: nat,
                     reload: ContainerId -> ReloadResult)
      returns (kept': nat)
      requires WellFormed(w) && i < |w.order| && id == w.order[i]
      requires State() == Pass(w, i, reload) && kept == |Pruned(w.order[..i], reload)|
      modifies this
      ensures State() == Pass(w, i + 1, reload)
      ensures kept' == |Pruned(w.order[..i + 1], reload)|
    {
      PassNext(w, i, reload);
      ghost var next := Pass(w, i + 1, reload);
      var container := containers[id];
      log := log + [Reload(container.id)];
      if !Survives(reload(container.id)) {
        PassDrops(w, i, reload);
        containers := containers - {container.id};
        order := order[..kept] + order[kept + 1..];
        kept' := kept;
      } else {
        PassKeeps(w, i, reload);
        kept' := kept + 1;
      }
      assert containers == next.containers && order == next.order && log == next.log;
    }

    /** `containers[container.id] = container`. */
    method Register(c: Container)
      requires Valid()
      modifies this
      ensures Valid()
      ensures State() == Registered(old(State()), c)
    {
      RegisteredWellFormed(State(), c);
      if c.id !in containers {
        order := order + [c.id];
      }
      containers := containers[c.id := c];
    }

    /** `create_server`: pull the catalog's images, then make up to
        MAX_CONTAINER_RETRIES run attempts, each on a fresh port; register the
        first container that starts and return its port, or give up. */
    method CreateServer(request: GameRequest, freePort: nat -> int, run: nat -> RunOutcome)
      returns (port: Option<int>)
      requires Valid()
      modifies this
      ensures Valid()
      ensures (port, State()) == Create(old(State()), request, freePort, run)
    {
      ghost var w := State();
      CheckImagesPulled(IMAGE_NAME, latestTags);
      ghost var pulled, tags := log, latestTags;
      for attempt := 0 to MAX_CONTAINER_RETRIES
        invariant FirstStarted(run, 0) == FirstStarted(run, attempt)
        invariant Valid()
        invariant State() == w.(log := pulled + FailedAttempts(request, tags, freePort, run, attempt))
      {
        var p := freePort(attempt);
        var spec := SpecFor(request, p);
        var outcome := run(attempt);
        Attempt(request, p, outcome);
        if outcome.Started? {
          assert FirstStarted(run, 0) == Some(attempt);
          assert AttemptEvents(request, p, outcome, tags) == [Run(request, p)];
          CreateStarted(w, request, freePort, run, attempt);
          Register(Container(outcome.id, spec));
          return Some(p);
        }
        assert log == pulled + FailedAttempts(request, tags, freePort, run, attempt + 1);
      }
      CreateExhausted(w, request, freePort, run);
      port := None;
    }

    /** One `containers.run` call of the retry loop and its error handling:
        a missing image makes the controller pull the catalog's images again,
        any other failure is only logged. */
    method Attempt(request: GameRequest, port: int, outcome: RunOutcome)
      requires Valid()
      modifies this
      ensures Valid()
      ensures State() == old(State()).(log := old(log) + AttemptEvents(request, port, outcome, old(latestTags)))
    {
      log := log + [Run(request, port)];
      if outcome.ImageNotFound? {
        CheckImagesPulled(IMAGE_NAME, latestTags);
      }
    }

    /** `stop_server`: look the container up and stop it; a container the
        runtime no longer finds is skipped without an error. */
    method StopServer(id: ContainerId, found: ContainerId -> bool)
      requires Valid()
      modifies this
      ensures Valid()
      ensures State() == old(State()).(log := old(log) + StopServerEvents(id, found))
    {
      log := log + [Get(id)];
      if found(id) {
        log := log + [Stop(id)];
      }
    }

    /** `stop_all_servers`: one `stop_server` per tracked container, in dict order. */
    method StopAllServers(found: ContainerId -> bool)
      requires Valid()
      modifies this
      ensures Valid()
      ensures State() == StopAll(old(State()), found)
    {
      var ids := order;
      for i := 0 to |ids|
        invariant Valid()
        invariant log == old(log) + StopEvents(ids[..i], found)
        invariant containers == old(containers) && order == old(order)
        invariant latestTags == old(latestTags) && minSupportedTag == old(minSupportedTag)
      {
        assert ids[..i + 1][..i] == ids[..i];
        StopServer(containers[ids[i]].id, found);
      }
      assert ids[..|ids|] == ids;
    }

    /** `request_game`: the guard chain, then the creation of the container. */
    method RequestGame(request: GameRequest, env: Env) returns (outcome: Outcome)
      requires Valid()
      modifies this
      ensures Valid()
      ensures (outcome, State()) == Request(old(State()), request, env)
    {
      var parsed := Parse(request.version);
      if parsed.None? {
        return InvalidVersion(latestTags);
      }
      var version := parsed.value;
      RemoveStoppedContainers(env.reload);
      if |containers| >= MAX_RUNNING_SERVERS {
        return TooManyServers;
      }
      if minSupportedTag.None? {
        return NoMinimumVersion;
      }
      if Less(version, minSupportedTag.value) {
        return UpgradeRequired(latestTags);
      }
      if version !in latestTags {
        GetLatestImageTags(DOCKER_USER, DOCKER_REPO, env.registry);
        if version !in latestTags {
          return UnsupportedVersion(latestTags);
        }
      }
      var port := CreateServer(request, env.freePort, env.run);
      outcome := if port.Some? then Launched(port.value) else LaunchFailed;
    }

    /** The startup half of `lifespan`: refresh the catalog, then pull its images. */
    method Startup(response: RegistryResponse)
      requires Valid()
      modifies this
      ensures Valid()
      ensures State() == Boot(old(State()), response)
    {
      GetLatestImageTags(DOCKER_USER, DOCKER_REPO, response);
      CheckImagesPulled(IMAGE_NAME, latestTags);
    }
  }
}
