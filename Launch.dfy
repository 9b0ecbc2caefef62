/** Container creation for one game request: the command line and port map of
    each run attempt, and which of the bounded attempts succeeds. */
module Launch {

  import opened Options
  import opened Numerals

  const IMAGE_NAME := "stuxgames/flappierace"
  const SECRETS_VOLUME := "flappieracebackend_nginx_secrets"
  const MAX_CONTAINER_RETRIES := 10
  const ALL_INTERFACES := "0.0.0.0"

  type ContainerId = string

  /** The body of a game request; `version` is the text the client sent. */
  datatype GameRequest = GameRequest(name: string, list: bool, version: string)

  /** A host-side binding of a container port: host address and host port. */
  datatype Binding = Binding(host: string, port: int)

  /** Everything one `containers.run` call asks of the container runtime. */
  datatype RunSpec = RunSpec(
    image: string,
    command: seq<string>,
    ports: map<string, Binding>,
    volumes: seq<string>,
    tty: bool,
    detach: bool)

  /** What a run attempt gave back: a started container, or one of the two
      failures the retry loop catches (`APIError`, `ImageNotFound`). */
  datatype RunOutcome = Started(id: ContainerId) | ApiError | ImageNotFound

  /** What the game server reads from its command line. */
  datatype Invocation = Invocation(name: string, port: int, list: bool)

  /** The game server's arguments; every value is passed as text. */
  function Command(request: GameRequest, port: int): seq<string> {
    var args := ["--name", request.name, "--port", IntToString(port)];
    if request.list then args + ["--list"] else args
  }

  /** How the game server reads its arguments back: the partner of `Command`. */
  function DecodeCommand(args: seq<string>): Option<Invocation> {
    if && (|args| == 4 || (|args| == 5 && args[4] == "--list"))
       && args[0] == "--name" && args[2] == "--port"
       && ParseInt(args[3]).Some?
    then Some(Invocation(args[1], ParseInt(args[3]).value, |args| == 5))
    else None
  }

  /** The command carries exactly the request's name and list flag and the
      attempt's port: decoding it gives them back, whatever the name is. */
  lemma CommandDecodes(request: GameRequest, port: int)
    ensures DecodeCommand(Command(request, port)) == Some(Invocation(request.name, port, request.list))
  {
    IntRoundTrip(port);
  }

  /** The port map: the attempt's port, over datagram and stream, bound on all interfaces. */
  function PortBindings(port: int): map<string, Binding> {
    var text := IntToString(port);
    map[text + "/udp" := Binding(ALL_INTERFACES, port), text + "/tcp" := Binding(ALL_INTERFACES, port)]
  }

  /** The port map has exactly two entries, one per protocol, each naming the
      attempt's port and binding that same port on all interfaces. */
  lemma PortBindingsShape(port: int)
    ensures |PortBindings(port)| == 2
    ensures forall key | key in PortBindings(port) ::
      && PortBindings(port)[key] == Binding(ALL_INTERFACES, port)
      && |key| >= 4 && key[..|key| - 4] == IntToString(port) && ParseInt(key[..|key| - 4]) == Some(port)
      && key[|key| - 4..] in {"/udp", "/tcp"}
    ensures exists key | key in PortBindings(port) :: key[|key| - 4..] == "/udp"
    ensures exists key | key in PortBindings(port) :: key[|key| - 4..] == "/tcp"
  {
    var text := IntToString(port);
    var udp, tcp := text + "/udp", text + "/tcp";
    assert udp[|text| + 1] != tcp[|text| + 1];
    assert udp[..|udp| - 4] == text && tcp[..|tcp| - 4] == text;
    assert udp[|udp| - 4..] == "/udp" && tcp[|tcp| - 4..] == "/tcp";
    assert PortBindings(port).Keys == {udp, tcp};
    IntRoundTrip(port);
  }

  /** The run request of one attempt on `port`. The image tag is the version
      text of the request, exactly as sent. */
  function SpecFor(request: GameRequest, port: int): RunSpec {
    RunSpec(
      IMAGE_NAME + ":" + request.version,
      Command(request, port),
      PortBindings(port),
      [SECRETS_VOLUME + ":/secrets:ro"],
      true,
      true)
  }

  /** The first attempt, counting from `from`, whose run succeeds, if any
      does before the retry bound. */
  function FirstStarted(run: nat -> RunOutcome, from: nat): (k: Option<nat>)
    ensures k.Some? ==> from <= k.value < MAX_CONTAINER_RETRIES && run(k.value).Started?
    ensures k.Some? ==> forall j | from <= j < k.value :: !run(j).Started?
    ensures k.None? ==> forall j | from <= j < MAX_CONTAINER_RETRIES :: !run(j).Started?
    decreases MAX_CONTAINER_RETRIES - from
  {
    if from >= MAX_CONTAINER_RETRIES then None
    else if run(from).Started? then Some(from)
    else FirstStarted(run, from + 1)
  }
}
