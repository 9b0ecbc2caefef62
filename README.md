# Game server fleet manager: a verified model

This project models the fleet lifecycle controller of the game server manager
(`app/main.py`). The controller starts and tracks the dedicated game-server
containers of the game. It keeps three pieces of process-wide state:

- `containers`: the dict of running containers, keyed by container id;
- `latest_tags`: the catalog of game versions published on the registry;
- `min_supported_tag`: the least version of that catalog.

The controller acts on that state in these ways:

- it refreshes the catalog from the registry;
- it admits a game request through a fixed chain of checks;
- it prunes containers that stopped;
- it creates a container with a bounded number of run attempts;
- it stops every container at shutdown.

The model is in seven modules, one file each:

- `Options`: the `Option` datatype.
- `Numerals`: decimal text of integers (`str(n)`) and its parser, with round trips.
- `Versions`: the `major.minor.patch` version and its precedence. It also has
  parsing from and printing to the `N.N.N` text, with both round trips.
- `Catalog`: parsing a page of registry tag names into the catalog. This
  module also has the minimum, and the tag loop as a method with invariants.
- `Launch`: what one run attempt asks of the container runtime. That is the
  game server's command line, the port map, the image and the volume. It also
  finds the first attempt that starts a container.
- `Fleet`: the controller's state as a value (`FleetState`) and every
  operation as a function on it, with the properties proved about them.
- `Manager`: the class `GameManager`. Its fields are the process-wide state,
  and its methods update them in place with the source's loops. Each method's
  postcondition says the new state, and its result, equal the `Fleet` function
  of the old state.

The outside world is modelled as inputs, and every call the controller makes is
appended to a log of events. These inputs are:

- the registry's answer (status and tag names);
- the result of each container reload;
- the free port of each attempt;
- the outcome of each run attempt;
- whether a container is found at shutdown.

The events are fetching the tags, pulling the catalog's images, reloading,
running, looking up and stopping a container. Properties about call order and
call counts are statements about this log.

The Python dict's insertion order matters for the order of reloads and stops,
so it is kept as a sequence `order` beside the map. The invariant `WellFormed`
says the two agree, every entry is keyed by its container's id, and the
catalog's minimum is its least member.

`request_game` compares the version with `min_supported_tag` (line 81). When no
minimum is known, that comparison raises in Python. The model gives it its own
outcome, `NoMinimumVersion`. A consequence is proved: once the minimum is
absent, every later parseable request stops at that comparison, before the one
place where a request can refresh the catalog. So a failed refresh at startup
leaves the manager unable to launch any game until it restarts
(`Fleet.NoCatalogIsPermanent`, `Fleet.FailedBootBlocksLaunches`).

Three behaviours of the code shape the model:

- the catalog's images are pulled again before every creation (line 146) and,
  as the code is written, after an `ImageNotFound` failure of a run attempt
  (line 170), so pulls are not deduplicated;
- at shutdown, a container the runtime no longer finds is skipped with a
  warning and gets no stop call (lines 197-202);
- each attempt takes whatever port the operating system hands out (line 150),
  so ports are not claimed to be distinct.

## Model

| member | source | states |
|---|---|---|
| Numerals.IntRoundTrip | app/main.py:152 | the port text `str(port)` on the command line reads back as the port, for every integer |
| Versions.LessIsStrictTotalOrder | app/main.py:81 | version precedence is irreflexive, transitive, total and asymmetric, so a catalog has one least version |
| Versions.ParseFormat | app/main.py:69 | printing a version and parsing the text gives the version back |
| Versions.FormatParse | app/main.py:156 | a text that parses is exactly the printed form of its version, so the image tag built from the request's text names that version |
| Catalog.ParseTagsMembers | app/main.py:107-115 | a version is in the parsed tags iff some tag name parses to it; names that do not parse are dropped |
| Catalog.ParseTagsAppend | app/main.py:107-115 | parsing keeps the order of the input: the tags of a concatenation are the tags of each part, in order |
| Catalog.Minimum | app/main.py:106-114 | the minimum is absent iff there are no tags, and otherwise it is a member that is less than or equal to every member |
| Catalog.ScanTags | app/main.py:105-115 | the tag loop returns exactly the parseable names in input order, and their minimum |
| Catalog.Refreshed | app/main.py:101-118 | a response other than 200 leaves the catalog unchanged; a 200 response replaces the tags with the parsed names and leaves a consistent minimum |
| Catalog.RefreshedConsistent | app/main.py:116-118 | a refresh keeps the catalog consistent whatever the response: minimum absent iff no tags, otherwise the least tag |
| Launch.CommandDecodes | app/main.py:152-154 | the command line carries exactly the request's name, the attempt's port and the list flag: `--list` is present iff the request asks to be listed |
| Launch.PortBindingsShape | app/main.py:159-162 | the port map has exactly two keys, one ending in `/udp` and one in `/tcp`, each the text `str(port)` followed by its protocol, and each binding that same port on 0.0.0.0 |
| Launch.FirstStarted | app/main.py:147-175 | the attempt registered is the first that starts a container, below the retry bound; none is found iff every attempt fails |
| Fleet.Initial | app/main.py:39-41 | the process starts with no containers, an empty catalog and no minimum, which is well formed |
| Fleet.Reconciled | app/main.py:124-135 | reconciliation adds and re-keys nothing: every entry left was running at its reload with its value unchanged, and every entry removed was not running or its reload raised |
| Fleet.PrunedMembers | app/main.py:126-135 | an id stays in the dict's order iff it was tracked and its reload saw it running |
| Fleet.ReconciledWellFormed | app/main.py:124-135 | reconciliation keeps the dict, its order and the catalog well formed |
| Fleet.Registered | app/main.py:174 | registering adds the container under its own id and changes no other entry, the catalog or the log |
| Fleet.FailedAttemptsCalls | app/main.py:147-170 | n failed attempts make exactly n run calls and never query the registry |
| Fleet.CreateExtendsLog | app/main.py:145-179 | creation only appends to the record of calls |
| Fleet.CreateCalls | app/main.py:145-179 | creation makes one run call per attempt: the index of the first success plus one, or exactly MAX_CONTAINER_RETRIES when all fail; it never queries the registry |
| Fleet.CreateRegistersFirstStarted | app/main.py:145-179 | creation fails iff no attempt starts a container, and then containers are unchanged; otherwise it returns the first started attempt's port and adds exactly that container under its id |
| Fleet.CreateWellFormed | app/main.py:145-179 | creation keeps the state well formed |
| Fleet.StopEventsLookUp | app/main.py:191-192 | shutdown looks up exactly the tracked ids, in dict order |
| Fleet.StopEventsStop | app/main.py:195-202 | a container is stopped iff it is tracked and the runtime still finds it |
| Fleet.StopAllLooksUpEachOnce | app/main.py:189-202 | shutdown looks up each tracked container exactly once and nothing else, stops exactly those the runtime finds, swallows the others, and leaves containers and catalog unchanged |
| Fleet.UnparseableRejectedFirst | app/main.py:68-74 | an unparseable version is rejected with the catalog before any reload, refresh or run, and the state is unchanged |
| Fleet.ReconcileBeforeCapacity | app/main.py:75-80 | a parseable request first reloads every tracked container, and it is refused for capacity iff at least MAX_RUNNING_SERVERS containers survive reconciliation |
| Fleet.FirstFailingCheckDecides | app/main.py:68-93 | each rejection happens iff its check is the first to fail, in the order parse, capacity, minimum, membership after at most one refresh |
| Fleet.MinimumVersionExample | app/main.py:81-95 | with minimum 1.2.0, version 1.1.9 must upgrade, and version 1.2.0 goes on to creation without querying the registry |
| Fleet.GatedFacts | app/main.py:86-88 | the membership gate queries the registry once iff the version is missing, leaves containers alone and keeps the state well formed |
| Fleet.RefreshAtMostOnce | app/main.py:86-93 | a request queries the registry at most once, exactly once iff the version passed the earlier checks and is missing; it is then rejected as unsupported iff the refreshed catalog still lacks it |
| Fleet.RejectionLaunchesNothing | app/main.py:68-93 | a rejected request makes no run call and adds no container |
| Fleet.LaunchIsAdmissible | app/main.py:76-95 | a launched game's version parses, is in the catalog and not below its minimum, and the fleet stays within MAX_RUNNING_SERVERS |
| Fleet.LaunchRunsRequestedImage | app/main.py:145-179 | a launched game is the first attempt that started: its port is returned, and the containers are those left by reconciliation plus that container under the id the runtime gave it, run with this request's arguments and that port, from the image of exactly the requested version |
| Fleet.RequestWellFormed | app/main.py:64-95 | a request keeps the state well formed |
| Fleet.NoCatalogIsPermanent | app/main.py:81-88 | while the minimum is absent, no request launches a game and none changes the catalog |
| Fleet.FailedBootBlocksLaunches | app/main.py:28-31 | if the registry query at startup fails, no later request launches a game |
| Fleet.RequestExtendsLog | app/main.py:64-95 | a request only appends to the record of calls |
| Fleet.ServeKeeps | app/main.py:32 | serving requests one after another answers each, keeps the state well formed and only appends to the record of calls |
| Fleet.LifespanOrder | app/main.py:27-34 | over the process's life the registry query and the pull of its catalog come first, every request is answered, and shutdown comes last, looking up exactly the containers still tracked after the last request, once each, and stopping those the runtime still finds |
| Manager.GameManager.constructor | app/main.py:39-41 | the manager starts in the initial state |
| Manager.GameManager.GetLatestImageTags | app/main.py:98-121 | the refresh logs one registry query for MAX_TAGS tags and replaces both catalog fields together, or neither when the status is not 200 |
| Manager.GameManager.CheckImagesPulled | app/main.py:138-142 | the pull is called with the image and the current catalog, and nothing else changes |
| Manager.GameManager.RemoveStoppedContainers | app/main.py:124-135 | the loop over a snapshot of the dict computes exactly the reconciled state and keeps it well formed |
| Manager.GameManager.ReloadOne | app/main.py:127-135 | one iteration reloads the next container and pops it from the dict unless it is running |
| Manager.GameManager.Register | app/main.py:174 | the dict assignment gives the registered state and keeps the dict, its order and the catalog well formed |
| Manager.GameManager.CreateServer | app/main.py:145-179 | the retry loop returns the port and state of the creation function, and keeps the state well formed |
| Manager.GameManager.Attempt | app/main.py:155-170 | an attempt logs its run call, and a missing image also pulls the catalog's images again |
| Manager.GameManager.StopServer | app/main.py:195-202 | a stop looks the container up and stops it only if the runtime finds it |
| Manager.GameManager.StopAllServers | app/main.py:189-192 | the loop over the dict stops every container as the shutdown function says, changing nothing but the log |
| Manager.GameManager.RequestGame | app/main.py:64-95 | the handler returns the outcome and state of the request function, and keeps the state well formed |
| Manager.GameManager.Startup | app/main.py:28-31 | startup refreshes the catalog and then pulls the images of the catalog it now has |

## Left out

- Semantic versions are the `major.minor.patch` triple. Texts are `N.N.N` numerals without leading zeros. Pre-release and build parts are not modelled.
- The shape of the registry's JSON (`results`, `name`) is assumed: a malformed body, which raises in the source, is not modelled.
- Network errors of the registry query are not modelled, and neither are failures of an image pull or of `stop()`. Errors of a container lookup other than "not found" are not modelled either. All of these propagate in the source.
- Run failures other than the two the retry loop catches are not modelled; they propagate in the source.
- Image pulling is recorded only as a call with the image and the catalog; what the runtime does with it is not modelled.
- The container runtime and the registry are inputs: reload results, run outcomes, lookups and free ports are functions given to each operation.
- `find_free_port` is an arbitrary integer per attempt; no claim is made that ports are distinct or free.
- A run call is logged as the request and the port; its arguments are `Launch.SpecFor` of those two.
- Logging, the health and preflight routes, the HTTP framework, and the text of error messages are not modelled. Each outcome carries the catalog the message lists.
- The failure after the last attempt, and the raise when the minimum is absent, are outcomes, not exceptions. The HTTP status they produce (500) is not modelled.
- Requests are handled one at a time; the interleaving of the asynchronous handler over the shared state is not modelled.
- `Fleet.Serve` runs requests one after another between startup and shutdown (the `yield` of `lifespan`, put in order by `Fleet.Lifespan`); the web server's request loop itself is not modelled.
- The retry loop's two failure kinds follow the code's text at lines 166-170. Whether line 168 is ever reached depends on the docker library's exception hierarchy, which is not modelled. Run outcomes are inputs, so every property holds whether or not `ImageNotFound` occurs.
