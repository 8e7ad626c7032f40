/** File uploads in flight: each put's handler and detached task, the staged
    files, the operations, and every step that can change them. */
module UploadSteps {
  import opened Wrappers
  import opened JsonValues
  import opened Graph
  import opened ScopedKeys

  type Id = string

  /** SHA-256 of some bytes as lowercase hex text. */
  type Digest = string -> string

  /** How a machine's endpoint authenticates. */
  datatype Auth = Agent | IdentityFile(path: string) | Secret(credential: string)

  datatype GuestOs = Linux | Windows

  /** Where a put goes: to a lease's machine, or to a machine reached through an
      endpoint. The endpoint may be left to be the machine's only one, the
      authentication the endpoint's own. The route names scope the keys. */
  datatype Target =
    | Lease(id: string)
    | Machine(id: string, endpoint: Option<string>, auth: Option<Auth>, guestOs: GuestOs)
  {
    function Kind(): (kind: string)
      ensures ':' !in kind
    {
      match this case Lease(_) => "lab-put" case Machine(_, _, _, _) => "machine-put"
    }
  }

  /** How the machine is reached once a request is resolved: the only endpoint and
      the endpoint's own authentication stand in for what was left open. */
  datatype Way =
    | ToLease(id: string)
    | ToMachine(id: string, endpoint: string, auth: Auth, guestOs: GuestOs)

  /** The way keeps to what the target names; what the target leaves open may be
      resolved differently from one request to the next. */
  predicate Fits(target: Target, way: Way) {
    match target
    case Lease(id) => way == ToLease(id)
    case Machine(id, endpoint, auth, guestOs) =>
      && way.ToMachine? && way.id == id && way.guestOs == guestOs
      && (endpoint.Some? ==> way.endpoint == endpoint.value) && (auth.Some? ==> way.auth == auth.value)
  }

  /** The way a request is resolved to, when these stand in for what it leaves open. */
  function Resolve(target: Target, endpoint: string, auth: Auth): (way: Way)
    ensures Fits(target, way)
  {
    match target
    case Lease(id) => ToLease(id)
    case Machine(id, named, given, guestOs) =>
      ToMachine(id, if named.Some? then named.value else endpoint, if given.Some? then given.value else auth, guestOs)
  }

  /** What one put asks for. */
  datatype Request = Request(
    principal: string, target: Target, path: string, overwrite: bool, declared: Option<string>, key: Option<string>)

  datatype Staged = Staged(id: Id, sha256: string)

  datatype Outcome = Refused | Accepted(operation: nat)

  /** Where a put is. Up to `Receiving` its handler works; from `Checking` on,
      the detached task does. */
  datatype Phase =
    | Receiving
    | Dropped
    | Checking(staged: Staged)
    | Requesting(staged: Staged)
    | Queueing(staged: Staged, payload: Json)
    | Comparing(staged: Staged, answer: nat)
    | Discarding(staged: Staged, outcome: Outcome)
    | Ended(staged: Staged, outcome: Outcome)

  /** `way` is how the request was resolved when it was granted. */
  datatype Put = Put(request: Request, phase: Phase, connected: bool, way: Option<Way>)

  /** A queued operation; `asked`, `way` and `sha256` are what it copies and how,
      and `maker` is the put that stored it. */
  datatype Operation = Operation(
    payload: Option<Json>, key: Option<string>, asked: Request, way: Option<Way>, sha256: string, maker: nat)

  /** What took place, by put; no step reads it. A create stored an operation it
      answered with an error, a task panicked, and a panic was mishandled: the
      handler discarded an operation's file, or nobody discarded another. */
  datatype History = History(unrecorded: set<nat>, panicked: set<nat>, mishandled: set<nat>)

  /** `files` maps each staged file to its digest; `partial` names the puts
      whose writer holds an unfinished file; `issued` remembers used ids. */
  datatype State = State(
    puts: seq<Put>, partial: set<nat>, files: map<Id, string>, issued: set<Id>, operations: seq<Operation>,
    history: History)

  const NOTHING := State([], {}, map[], {}, [], History({}, {}, {}))

  // --------------------------------------------------------------- keys

  function FlagText(flag: bool): string {
    if flag then "true" else "false"
  }

  /** What a caller's key is bound to: the target path, the overwrite flag and
      the file's digest. */
  function BindingText(path: string, overwrite: bool, sha256: string): string {
    path + ['\0'] + FlagText(overwrite) + ['\0'] + sha256
  }

  function RequestKey(hash: Digest, r: Request, sha256: string): Option<string> {
    match r.key
    case None => None
    case Some(key) =>
      Some(ScopedKey(r.target.Kind(), r.principal, [r.target.id, hash(BindingText(r.path, r.overwrite, sha256)), key]))
  }

  /** The operation an earlier create made under this key. */
  function FindKey(operations: seq<Operation>, key: string): (r: Option<nat>)
    ensures r.Some? ==> r.value < |operations| && operations[r.value].key == Some(key)
    ensures r.None? ==> forall n :: 0 <= n < |operations| ==> operations[n].key != Some(key)
  {
    if operations == [] then None
    else match FindKey(operations[..|operations| - 1], key)
      case Some(n) => Some(n)
      case None =>
        var last := |operations| - 1;
        if operations[last].key == Some(key) then Some(last)
        else
          assert forall n :: 0 <= n < last ==> operations[..last][n] == operations[n];
          None
  }

  function UploadOf(operation: Operation): Option<string> {
    match operation.payload
    case Some(payload) => AsStr(Get(payload, "uploadId"))
    case None => None
  }

  predicate NamesUpload(payload: Json, id: Id) {
    AsStr(Get(payload, "uploadId")) == Some(id)
  }

  // -------------------------------------------------------------- steps

  function At(s: State, i: nat, phase: Phase): State
    requires i < |s.puts|
  {
    s.(puts := s.puts[i := s.puts[i].(phase := phase)])
  }

  /** A put begins: its writer opens a partial file. */
  function Opened(s: State, request: Request): State {
    s.(puts := s.puts + [Put(request, Receiving, true, None)], partial := s.partial + {|s.puts|})
  }

  /** The writer is dropped, and its partial file with it. */
  function Abandoned(s: State, i: nat): State
    requires i < |s.puts|
  {
    At(s, i, Dropped).(partial := s.partial - {i})
  }

  /** The writer finished; the staged file is the detached task's. */
  function FileStaged(s: State, i: nat, staged: Staged): State
    requires i < |s.puts|
  {
    At(s, i, Checking(staged)).(
      partial := s.partial - {i}, files := s.files[staged.id := staged.sha256], issued := s.issued + {staged.id})
  }

  function Checked(s: State, i: nat): State
    requires i < |s.puts| && s.puts[i].phase.Checking?
  {
    var staged, declared := s.puts[i].phase.staged, s.puts[i].request.declared;
    if declared.Some? && declared.value != staged.sha256 then At(s, i, Discarding(staged, Refused))
    else At(s, i, Requesting(staged))
  }

  /** The request is refused, which discards the staged file. */
  function RequestRefused(s: State, i: nat): State
    requires i < |s.puts| && s.puts[i].phase.Requesting?
  {
    var staged := s.puts[i].phase.staged;
    At(s, i, Ended(staged, Refused)).(files := s.files - {staged.id})
  }

  function RequestGranted(s: State, i: nat, payload: Json, way: Way): State
    requires i < |s.puts| && s.puts[i].phase.Requesting?
  {
    s.(puts := s.puts[i := s.puts[i].(phase := Queueing(s.puts[i].phase.staged, payload), way := Some(way))])
  }

  /** How a create goes: refused before anything is stored, answered, or stored
      and then refused because the answer or its audit record failed. */
  datatype Create = Denied | Answered | Unrecorded

  /** The operation under the request's key, if the key has one already. */
  function Earlier(hash: Digest, s: State, i: nat): Option<nat>
    requires i < |s.puts| && s.puts[i].phase.Queueing?
  {
    var key := RequestKey(hash, s.puts[i].request, s.puts[i].phase.staged.sha256);
    if key.Some? then FindKey(s.operations, key.value) else None
  }

  /** A create that fails after storing is harmless when it stored nothing new. */
  predicate HarmlessCreate(hash: Digest, s: State, i: nat, create: Create)
    requires i < |s.puts| && s.puts[i].phase.Queueing?
  {
    create.Unrecorded? ==> Earlier(hash, s, i).Some?
  }

  /** What a create stores: nothing when the key has an operation already. */
  function Made(hash: Digest, s: State, i: nat, create: Create): seq<Operation>
    requires i < |s.puts| && s.puts[i].phase.Queueing?
  {
    var staged, request := s.puts[i].phase.staged, s.puts[i].request;
    if Earlier(hash, s, i).Some? || create.Denied? then []
    else
      var key := RequestKey(hash, request, staged.sha256);
      [Operation(Some(s.puts[i].phase.payload), key, request, s.puts[i].way, staged.sha256, i)]
  }

  /** The create: a repeated key is answered by its earlier operation, anything
      else stores a new one. The caller discards the file on every error. */
  function Created(hash: Digest, s: State, i: nat, create: Create): State
    requires i < |s.puts| && s.puts[i].phase.Queueing?
  {
    var staged, earlier := s.puts[i].phase.staged, Earlier(hash, s, i);
    var answer := if earlier.Some? then earlier.value else |s.operations|;
    var unrecorded := if HarmlessCreate(hash, s, i, create) then {} else {i};
    At(s, i, if create.Answered? then Comparing(staged, answer) else Discarding(staged, Refused)).(
      operations := s.operations + Made(hash, s, i, create),
      history := s.history.(unrecorded := s.history.unrecorded + unrecorded))
  }

  predicate OwnsUpload(s: State, n: nat, id: Id) {
    n < |s.operations| && UploadOf(s.operations[n]) == Some(id)
  }

  function Compared(s: State, i: nat): State
    requires i < |s.puts| && s.puts[i].phase.Comparing?
  {
    var staged, n := s.puts[i].phase.staged, s.puts[i].phase.answer;
    if OwnsUpload(s, n, staged.id) then At(s, i, Ended(staged, Accepted(n)))
      else At(s, i, Discarding(staged, Accepted(n)))
  }

  function Discarded(s: State, i: nat): State
    requires i < |s.puts| && s.puts[i].phase.Discarding?
  {
    var staged := s.puts[i].phase.staged;
    At(s, i, Ended(staged, s.puts[i].phase.outcome)).(files := s.files - {staged.id})
  }

  /** The client goes away while the detached task works: nothing else changes. */
  function Disconnected(s: State, i: nat): State
    requires i < |s.puts|
  {
    s.(puts := s.puts[i := s.puts[i].(connected := false)])
  }

  /** The put's file was staged. */
  predicate HasFile(p: Phase) {
    !p.Receiving? && !p.Dropped?
  }

  predicate InTask(p: Phase) {
    HasFile(p) && !p.Ended?
  }

  /** An operation carries the staged file `id`. */
  predicate Carried(s: State, id: Id) {
    exists n :: 0 <= n < |s.operations| && OwnsUpload(s, n, id)
  }

  /** A panic that neither loses nor leaks the file: a handler is there to discard
      it exactly when no operation carries it. */
  predicate HarmlessPanic(s: State, i: nat)
    requires i < |s.puts| && InTask(s.puts[i].phase)
  {
    s.puts[i].connected <==> !Carried(s, s.puts[i].phase.staged.id)
  }

  /** The task panics. A handler still waiting for it discards the staged file. */
  function Panicked(s: State, i: nat): State
    requires i < |s.puts| && InTask(s.puts[i].phase)
  {
    var staged := s.puts[i].phase.staged;
    var mishandled := if HarmlessPanic(s, i) then {} else {i};
    At(s, i, Ended(staged, Refused)).(
      files := if s.puts[i].connected then s.files - {staged.id} else s.files,
      history := s.history.(panicked := s.history.panicked + {i}, mishandled := s.history.mishandled + mishandled))
  }

  /** A step of put `i`'s own handler or task. */
  ghost predicate MovesBy(hash: Digest, s: State, next: State, i: nat) {
    if i >= |s.puts| then i == |s.puts| && exists request :: next == Opened(s, request)
    else
      || (InTask(s.puts[i].phase) && next == Panicked(s, i))
      || match s.puts[i].phase
         case Receiving =>
           || next == Abandoned(s, i)
           || exists id: Id, content: string :: id !in s.issued && next == FileStaged(s, i, Staged(id, hash(content)))
         case Checking(_) => next == Checked(s, i)
         case Requesting(staged) =>
           || next == RequestRefused(s, i)
           || exists payload, way ::
                NamesUpload(payload, staged.id) && Fits(s.puts[i].request.target, way)
                && next == RequestGranted(s, i, payload, way)
         case Queueing(_, _) => exists create :: next == Created(hash, s, i, create)
         case Comparing(_, _) => next == Compared(s, i)
         case Discarding(_, _) => next == Discarded(s, i)
         case _ => false
  }

  /** The client of put `i` goes away after the hand-over. */
  ghost predicate Leaves(s: State, next: State, i: nat) {
    i < |s.puts| && InTask(s.puts[i].phase) && next == Disconnected(s, i)
  }

  ghost function Moves(hash: Digest): (State, State) -> bool {
    (s: State, next: State) => exists i :: MovesBy(hash, s, next, i) || Leaves(s, next, i)
  }

  /** What happens around put `i` while it waits: the steps of every other put,
      and its own client leaving. */
  ghost function Around(hash: Digest, i: nat): (State, State) -> bool {
    (s: State, next: State) =>
      Leaves(s, next, i) || exists j :: j != i && i < |s.puts| && (MovesBy(hash, s, next, j) || Leaves(s, next, j))
  }

  lemma AroundMoves(hash: Digest, i: nat, s: State, next: State)
    requires Reaches(Around(hash, i), s, next)
    ensures Reaches(Moves(hash), s, next)
  {
    ghost var reached := (x: State) => Reaches(Moves(hash), s, x);
    ReachesItself(Moves(hash), s);
    forall a: State, b: State | reached(a) && Around(hash, i)(a, b) ensures reached(b) {
      ReachesFurther(Moves(hash), s, a, b);
    }
    ReachedStaysInside(Around(hash, i), reached, s, next);
  }

  /** What goes on around a put leaves where it is alone. */
  lemma AroundKeeps(hash: Digest, i: nat, s: State, next: State)
    requires i < |s.puts| && Reaches(Around(hash, i), s, next)
    ensures i < |next.puts| && next.puts[i].phase == s.puts[i].phase && next.puts[i].request == s.puts[i].request
  {
    ghost var same := (x: State) =>
      i < |x.puts| && x.puts[i].phase == s.puts[i].phase && x.puts[i].request == s.puts[i].request;
    forall a: State, b: State | same(a) && Around(hash, i)(a, b) ensures same(b) {
      AroundStepKeeps(hash, i, a, b);
    }
    ReachedStaysInside(Around(hash, i), same, s, next);
  }

  lemma AroundStepKeeps(hash: Digest, i: nat, s: State, next: State)
    requires i < |s.puts| && Around(hash, i)(s, next)
    ensures i < |next.puts| && next.puts[i].phase == s.puts[i].phase && next.puts[i].request == s.puts[i].request
  {
    if !Leaves(s, next, i) {
      var j: nat :| j != i && (MovesBy(hash, s, next, j) || Leaves(s, next, j));
      if j < |s.puts| && !Leaves(s, next, j) { OnePutMoves(hash, s, next, j); }
    }
  }

  /** A step of one put changes no other. */
  lemma OnePutMoves(hash: Digest, s: State, next: State, j: nat)
    requires j < |s.puts| && MovesBy(hash, s, next, j)
    ensures next.puts == s.puts[j := next.puts[j]] && next.puts[j].request == s.puts[j].request
    ensures s.operations <= next.operations
  {
  }
}
