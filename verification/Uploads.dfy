/** One put, from its first byte to its answer, while other puts go on around it. */
module Uploads {
  import opened Wrappers
  import opened Sequences
  import opened JsonValues
  import opened Graph
  import opened UploadSteps

  /** What the body stream yields next; one character is one byte. */
  datatype Event = Chunk(bytes: string) | Stalled | Unreadable | Busy | ClientGone

  /** The bytes up to the first event that is not a chunk, if there is none. */
  function Received(events: seq<Event>): (r: Option<string>)
    ensures r.Some? <==> forall e :: e in events ==> e.Chunk?
  {
    if events == [] then Some("")
    else match Received(events[..|events| - 1])
      case Some(bytes) => if events[|events| - 1].Chunk? then Some(bytes + events[|events| - 1].bytes) else None
      case None => None
  }

  lemma {:induction false} ReceivedPrefix(events: seq<Event>, n: nat)
    requires n <= |events| && Received(events).Some?
    ensures Received(events[..n]).Some? && Received(events[..n]).value <= Received(events).value
  {
    if n == |events| {
      assert events[..n] == events;
    } else {
      ReceivedPrefix(events[..|events| - 1], n);
      assert events[..|events| - 1][..n] == events[..n];
    }
  }

  /** What is received is what was sent, one chunk after the other. */
  lemma {:induction false} ReceivedIs(chunks: seq<string>, events: seq<Event>)
    requires |events| == |chunks| && forall i :: 0 <= i < |chunks| ==> events[i] == Chunk(chunks[i])
    ensures Received(events) == Some(Concat(chunks))
  {
    if chunks != [] {
      var before, last := chunks[..|chunks| - 1], chunks[|chunks| - 1];
      ReceivedIs(before, events[..|events| - 1]);
      assert chunks == before + [last];
    }
  }

  /** The upload is taken whole: nothing but chunks, the cap kept, the writer
      finished. */
  predicate Taken(events: seq<Event>, cap: nat, finishes: bool) {
    finishes && Received(events).Some? && |Received(events).value| <= cap
  }

  /** How the ports answer one put; `endpoint` and `auth` stand in for what the
      request leaves open. */
  datatype Answers = Answers(
    begins: bool, finishes: bool, grants: bool, endpoint: string, auth: Auth, fields: map<string, Json>, create: Create)

  /** The new operation's payload carries the staging id. */
  function PayloadOf(fields: map<string, Json>, id: Id): (payload: Json)
    ensures NamesUpload(payload, id)
  {
    Obj(fields["uploadId" := Str(id)])
  }

  /** There is always an id not used before. */
  lemma UnusedId(issued: set<Id>) returns (id: Id)
    ensures forall other :: other in issued ==> |other| < |id|
  {
    id := "x";
    var left := issued;
    while left != {}
      invariant forall other :: other in issued && other !in left ==> |other| < |id|
      decreases left
    {
      var other :| other in left;
      if |id| <= |other| {
        id := other + "x";
      }
      left := left - {other};
    }
  }

  function DigestRefused(declared: Option<string>, sha256: string): bool {
    declared.Some? && declared.value != sha256
  }

  predicate LowerHex(c: char) {
    '0' <= c <= '9' || 'a' <= c <= 'f'
  }

  predicate IsDigest(text: string) {
    |text| == 64 && forall c :: c in text ==> LowerHex(c)
  }

  predicate DeclaredWell(declared: Option<string>) {
    declared.Some? ==> IsDigest(declared.value)
  }

  /** What it takes for a put to be accepted. */
  predicate WholePutAccepted(hash: Digest, request: Request, announced: Option<nat>, events: seq<Event>, cap: nat,
                             answers: Answers) {
    && DeclaredWell(request.declared) && answers.begins && (announced.Some? ==> announced.value <= cap)
    && Taken(events, cap, answers.finishes) && !DigestRefused(request.declared, hash(Received(events).value))
    && answers.grants && answers.create.Answered?
  }

  class Controller {
    const hash: Digest
    var state: State

    constructor (hash: Digest)
      ensures this.hash == hash && state == NOTHING
    {
      this.hash := hash;
      state := NOTHING;
    }

    /** Other puts, and this put's client, act while put `i` waits. Nothing is
        done here; a caller may only rely on the steps they can take. */
    method Await(i: nat)
      modifies this`state
      ensures Reaches(Around(hash, i), old(state), state)
    {
      ReachesItself(Around(hash, i), state);
    }

    /** Waits, keeping track of the run so far and of where put `i` is. */
    method AwaitIn(i: nat, ghost start: State)
      requires i < |state.puts| && Reaches(Moves(hash), start, state)
      modifies this`state
      ensures Reaches(Moves(hash), start, state) && i < |state.puts|
      ensures state.puts[i].phase == old(state.puts[i].phase) && state.puts[i].request == old(state.puts[i].request)
    {
      Await(i);
      AroundMoves(hash, i, old(state), state);
      AroundKeeps(hash, i, old(state), state);
      ReachesTransitive(Moves(hash), start, old(state), state);
    }

    /** Put `i` takes one step. */
    method Step(i: nat, next: State, ghost start: State)
      requires MovesBy(hash, state, next, i) && Reaches(Moves(hash), start, state)
      modifies this`state
      ensures state == next && Reaches(Moves(hash), start, state)
    {
      ReachesFurther(Moves(hash), start, state, next);
      state := next;
    }

    /** The staging area names a finished file. */
    method NewId() returns (id: Id)
      ensures id !in state.issued
    {
      ghost var unused := UnusedId(state.issued);
      assert unused !in state.issued;
      id :| id !in state.issued;
    }

    /** Streams the body into the writer, chunk by chunk; a refusal drops the
        writer, which removes the partial file, and stops reading. */
    method StreamUpload(i: nat, events: seq<Event>, cap: nat, finishes: bool, ghost start: State)
      returns (staged: Option<Staged>)
      requires i < |state.puts| && state.puts[i].phase.Receiving? && Reaches(Moves(hash), start, state)
      modifies this`state
      ensures Reaches(Moves(hash), start, state) && i < |state.puts|
        && state.puts[i].request == old(state.puts[i].request)
      ensures staged.Some? <==> Taken(events, cap, finishes)
      ensures staged.Some? ==>
        staged.value.sha256 == hash(Received(events).value) && state.puts[i].phase == Checking(staged.value)
      ensures staged.None? ==> state.puts[i].phase == Dropped
    {
      var written := "";
      for n := 0 to |events|
        invariant Reaches(Moves(hash), start, state) && i < |state.puts|
        invariant state.puts[i].phase == Receiving && state.puts[i].request == old(state.puts[i].request)
        invariant Received(events[..n]) == Some(written) && |written| <= cap
      {
        AwaitIn(i, start);
        assert events[..n + 1][..n] == events[..n];
        if !events[n].Chunk? || |written| + |events[n].bytes| > cap {
          NotTaken(events, n, cap, finishes);
          Step(i, Abandoned(state, i), start);
          return None;
        }
        written := written + events[n].bytes;
      }
      assert events[..|events|] == events;
      AwaitIn(i, start);
      if !finishes {
        Step(i, Abandoned(state, i), start);
        return None;
      }
      var id := NewId();
      staged := Some(Staged(id, hash(written)));
      Step(i, FileStaged(state, i, staged.value), start);
    }

    /** The detached task: checks the digest, asks for the put, queues it, and
        discards the staged file on every refusal and on a replay. */
    method QueuePut(i: nat, answers: Answers, ghost start: State) returns (outcome: Outcome)
      requires i < |state.puts| && state.puts[i].phase.Checking? && Reaches(Moves(hash), start, state)
      modifies this`state
      ensures Reaches(Moves(hash), start, state) && i < |state.puts|
        && state.puts[i].request == old(state.puts[i].request)
      ensures state.puts[i].phase == Ended(old(state.puts[i].phase.staged), outcome)
      ensures outcome.Accepted? <==>
        answers.grants && answers.create.Answered?
          && !DigestRefused(state.puts[i].request.declared, old(state.puts[i].phase.staged.sha256))
    {
      AwaitIn(i, start);
      var staged := state.puts[i].phase.staged;
      Step(i, Checked(state, i), start);
      if state.puts[i].phase.Discarding? {
        outcome := Discard(i, start);
        return;
      }
      outcome := RequestAndCreate(i, answers, start);
    }

    method RequestAndCreate(i: nat, answers: Answers, ghost start: State) returns (outcome: Outcome)
      requires i < |state.puts| && state.puts[i].phase.Requesting? && Reaches(Moves(hash), start, state)
      modifies this`state
      ensures Reaches(Moves(hash), start, state) && i < |state.puts|
        && state.puts[i].request == old(state.puts[i].request)
      ensures state.puts[i].phase == Ended(old(state.puts[i].phase.staged), outcome)
      ensures outcome.Accepted? <==> answers.grants && answers.create.Answered?
    {
      AwaitIn(i, start);
      if !answers.grants {
        Step(i, RequestRefused(state, i), start);
        return Refused;
      }
      var way := Resolve(state.puts[i].request.target, answers.endpoint, answers.auth);
      Step(i, RequestGranted(state, i, PayloadOf(answers.fields, state.puts[i].phase.staged.id), way), start);
      AwaitIn(i, start);
      Step(i, Created(hash, state, i, answers.create), start);
      if answers.create.Answered? {
        outcome := HandOver(i, start);
      } else {
        outcome := Discard(i, start);
      }
    }

    /** Hands the staged file to the operation, or discards it when the create
        answered with an operation that owns a file of its own. */
    method HandOver(i: nat, ghost start: State) returns (outcome: Outcome)
      requires i < |state.puts| && state.puts[i].phase.Comparing? && Reaches(Moves(hash), start, state)
      modifies this`state
      ensures Reaches(Moves(hash), start, state) && i < |state.puts|
        && state.puts[i].request == old(state.puts[i].request)
      ensures outcome == Accepted(old(state.puts[i].phase.answer))
      ensures state.puts[i].phase == Ended(old(state.puts[i].phase.staged), outcome)
    {
      outcome := Accepted(state.puts[i].phase.answer);
      Step(i, Compared(state, i), start);
      if state.puts[i].phase.Discarding? {
        outcome := Discard(i, start);
      }
    }

    method Discard(i: nat, ghost start: State) returns (outcome: Outcome)
      requires i < |state.puts| && state.puts[i].phase.Discarding? && Reaches(Moves(hash), start, state)
      modifies this`state
      ensures Reaches(Moves(hash), start, state) && i < |state.puts|
        && state.puts[i].request == old(state.puts[i].request)
      ensures outcome == old(state.puts[i].phase.outcome)
      ensures state.puts[i].phase == Ended(old(state.puts[i].phase.staged), outcome)
    {
      AwaitIn(i, start);
      outcome := state.puts[i].phase.outcome;
      Step(i, Discarded(state, i), start);
    }

    /** One put, end to end. Whatever goes on around it, every change it makes
        is a step of the protocol, and it ends. */
    method PutFile(request: Request, announced: Option<nat>, events: seq<Event>, cap: nat, answers: Answers)
      returns (outcome: Outcome, ghost i: nat)
      modifies this`state
      ensures Reaches(Moves(hash), old(state), state)
      ensures outcome.Accepted? <==> WholePutAccepted(hash, request, announced, events, cap, answers)
      ensures outcome.Accepted? ==>
        && i < |state.puts| && state.puts[i].request == request
        && state.puts[i].phase.Ended? && state.puts[i].phase.outcome == outcome
        && state.puts[i].phase.staged.sha256 == hash(Received(events).value)
      ensures outcome.Refused? && i < |state.puts| ==> state.puts[i].phase.Dropped? || state.puts[i].phase.Ended?
    {
      ghost var start := state;
      ReachesItself(Moves(hash), state);
      i := |state.puts|;
      if !DeclaredWell(request.declared) || !answers.begins {
        return Refused, i;
      }
      var mine := |state.puts|;
      Step(mine, Opened(state, request), start);
      if announced.Some? && announced.value > cap {
        Step(mine, Abandoned(state, mine), start);
        return Refused, mine;
      }
      var staged := StreamUpload(mine, events, cap, answers.finishes, start);
      if staged.None? {
        return Refused, mine;
      }
      outcome := QueuePut(mine, answers, start);
    }
  }

  /** A put that declares a digest is accepted iff that is 64 lower-case hexadecimal
      digits and the digest of what arrives, and the put would be without it. */
  lemma DeclaredAcceptedIff(hash: Digest, request: Request, sha256: string, announced: Option<nat>, events: seq<Event>,
                            cap: nat, answers: Answers)
    ensures WholePutAccepted(hash, request.(declared := Some(sha256)), announced, events, cap, answers) <==>
      && |sha256| == 64 && (forall c :: c in sha256 ==> '0' <= c <= '9' || 'a' <= c <= 'f')
      && Received(events).Some? && sha256 == hash(Received(events).value)
      && WholePutAccepted(hash, request.(declared := None), announced, events, cap, answers)
  {
  }

  /** A body that breaks off or passes the cap at event `n` is not taken. */
  lemma NotTaken(events: seq<Event>, n: nat, cap: nat, finishes: bool)
    requires n < |events| && Received(events[..n]).Some?
    requires !events[n].Chunk? || |Received(events[..n]).value| + |events[n].bytes| > cap
    ensures !Taken(events, cap, finishes)
  {
    if Received(events).Some? {
      ReceivedPrefix(events, n + 1);
      assert events[..n + 1][..n] == events[..n] && events[n] in events;
    }
  }
}
