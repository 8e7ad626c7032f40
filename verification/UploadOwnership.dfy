/** Which uploads are lost and which are leaked, in every interleaving of puts. */
module UploadOwnership {
  import opened Wrappers
  import opened JsonValues
  import opened Graph
  import opened UploadSteps

  // -------------------------------------------------------- the account

  predicate Stages(s: State, i: int) {
    0 <= i < |s.puts| && HasFile(s.puts[i].phase)
  }

  function FileOf(s: State, i: int): Staged
    requires Stages(s, i)
  {
    s.puts[i].phase.staged
  }

  /** Put `i` stored an operation. */
  predicate Stored(s: State, i: nat) {
    exists n :: 0 <= n < |s.operations| && s.operations[n].maker == i
  }

  /** The last step that decided over put `i`'s file went wrong: its panic, if its
      task panicked, and otherwise its create. */
  predicate Harmed(s: State, i: nat) {
    if i in s.history.panicked then i in s.history.mishandled else i in s.history.unrecorded
  }

  /** What the put's phase says of its file, its operation and its history. While
      the task works the file is there. Afterwards it is there exactly when an
      operation uses it, unless something went wrong. */
  predicate FateFits(s: State, i: nat)
    requires Stages(s, i)
  {
    var phase, id, stored := s.puts[i].phase, FileOf(s, i).id, Stored(s, i);
    && (id in s.files ==> s.files[id] == FileOf(s, i).sha256)
    && (!phase.Ended? ==> id in s.files && i !in s.history.panicked && i !in s.history.mishandled)
    && match phase
       case Comparing(_, n) =>
         n < |s.operations| && (stored <==> s.operations[n].maker == i) && i !in s.history.unrecorded
       case Discarding(_, _) => stored <==> i in s.history.unrecorded
       case Ended(_, _) => (id in s.files <==> stored) <==> !Harmed(s, i)
       case _ => !stored && i !in s.history.unrecorded && (phase.Queueing? ==> NamesUpload(phase.payload, id))
  }

  ghost predicate FatesFit(s: State) {
    forall i: nat :: Stages(s, i) ==> FileOf(s, i).id in s.issued && FateFits(s, i)
  }

  ghost predicate NoEarlyHistory(s: State) {
    forall i: nat :: !Stages(s, i) ==>
      i !in s.history.unrecorded && i !in s.history.panicked && i !in s.history.mishandled
  }

  /** No two puts stage under one id. */
  ghost predicate IdsApart(s: State) {
    forall i: nat, j: nat :: i < j && Stages(s, i) && Stages(s, j) ==> FileOf(s, i).id != FileOf(s, j).id
  }

  /** The operation is its maker's: it carries the maker's file and asks what the
      maker asked. */
  predicate OperationFits(s: State, operation: Operation) {
    && Stages(s, operation.maker) && UploadOf(operation) == Some(FileOf(s, operation.maker).id)
    && operation.asked == s.puts[operation.maker].request && operation.sha256 == FileOf(s, operation.maker).sha256
  }

  predicate OperationsFit(s: State) {
    && (forall n :: 0 <= n < |s.operations| ==> OperationFits(s, s.operations[n]))
    && (forall n, m :: 0 <= n < m < |s.operations| ==> s.operations[n].maker != s.operations[m].maker)
  }

  ghost predicate FilesFit(s: State) {
    forall id :: id in s.files ==> exists i: nat :: Stages(s, i) && FileOf(s, i).id == id
  }

  /** A partial file exists exactly while its put receives. */
  ghost predicate PartialsMatch(s: State) {
    forall i: nat :: i in s.partial <==> i < |s.puts| && s.puts[i].phase.Receiving?
  }

  ghost predicate Accounted(s: State) {
    PartialsMatch(s) && FatesFit(s) && NoEarlyHistory(s) && IdsApart(s) && OperationsFit(s) && FilesFit(s)
  }

  /** An operation carries a put's file exactly when it is the put's own. */
  lemma OwnCarries(s: State, i: nat, n: nat)
    requires Accounted(s) && Stages(s, i) && n < |s.operations|
    ensures OwnsUpload(s, n, FileOf(s, i).id) <==> s.operations[n].maker == i
  {
    assert OperationFits(s, s.operations[n]);
  }

  lemma CarriedIffStored(s: State, i: nat)
    requires Accounted(s) && Stages(s, i)
    ensures Carried(s, FileOf(s, i).id) <==> Stored(s, i)
  {
    forall n | 0 <= n < |s.operations| ensures OwnsUpload(s, n, FileOf(s, i).id) <==> s.operations[n].maker == i {
      OwnCarries(s, i, n);
    }
  }

  // ------------------------------------------------------ what a step does

  /** Apart from put `i`, its file `id` and operations it makes, nothing changes. */
  ghost predicate OnlyPut(s: State, next: State, i: nat, id: Id) {
    && i < |s.puts| && |next.puts| == |s.puts| && next.puts == s.puts[i := next.puts[i]]
    && next.puts[i].request == s.puts[i].request
    && s.operations <= next.operations
      && (forall n :: |s.operations| <= n < |next.operations| ==> next.operations[n].maker == i)
    && (forall other :: other != id ==> (other in next.files <==> other in s.files))
    && (forall other :: other != id && other in s.files ==> next.files[other] == s.files[other])
    && (forall j: nat :: j != i ==>
          && (j in next.history.unrecorded <==> j in s.history.unrecorded)
          && (j in next.history.panicked <==> j in s.history.panicked)
          && (j in next.history.mishandled <==> j in s.history.mishandled))
  }

  lemma OtherFate(s: State, next: State, i: nat, id: Id, j: nat)
    requires OnlyPut(s, next, i, id) && j != i && Stages(s, j) && FateFits(s, j) && FileOf(s, j).id != id
    ensures FateFits(next, j)
  {
    assert next.puts[j] == s.puts[j];
    assert forall n :: 0 <= n < |s.operations| ==> next.operations[n] == s.operations[n];
    assert Stored(next, j) <==> Stored(s, j);
  }

  /** A step of put `i` keeps the account if it keeps its own part of it. */
  lemma OwnPartSuffices(s: State, next: State, i: nat)
    requires Accounted(s) && Stages(next, i)
    requires OnlyPut(s, next, i, FileOf(next, i).id)
    requires if Stages(s, i) then FileOf(s, i) == FileOf(next, i) else FileOf(next, i).id !in s.issued
    requires next.issued == s.issued + {FileOf(next, i).id} && next.partial == s.partial - {i}
    requires FateFits(next, i) && OperationsFit(next)
    ensures Accounted(next)
  {
    var id := FileOf(next, i).id;
    forall j: nat ensures j != i ==>
      (Stages(next, j) <==> Stages(s, j)) && (Stages(s, j) ==> FileOf(next, j) == FileOf(s, j)) {
    }
    forall j: nat | Stages(next, j) ensures FileOf(next, j).id in next.issued && FateFits(next, j) {
      if j != i { OtherFate(s, next, i, id, j); }
    }
    forall other | other in next.files ensures exists j: nat :: Stages(next, j) && FileOf(next, j).id == other {
      if other == id {
        assert Stages(next, i);
      } else {
        var j: nat :| Stages(s, j) && FileOf(s, j).id == other;
        assert Stages(next, j) && FileOf(next, j).id == other;
      }
    }
  }

  lemma SameOperationsFit(s: State, next: State, i: nat)
    requires OperationsFit(s) && next.operations == s.operations && i < |s.puts| == |next.puts|
    requires next.puts == s.puts[i := next.puts[i]] && next.puts[i].request == s.puts[i].request
    requires Stages(s, i) ==> Stages(next, i) && FileOf(next, i) == FileOf(s, i)
    ensures OperationsFit(next)
  {
    forall n | 0 <= n < |next.operations| ensures OperationFits(next, next.operations[n]) {
      assert OperationFits(s, s.operations[n]);
    }
  }

  lemma MadeOperationFits(hash: Digest, s: State, i: nat, create: Create)
    requires Accounted(s) && i < |s.puts| && s.puts[i].phase.Queueing?
    ensures OperationsFit(Created(hash, s, i, create))
  {
    var next := Created(hash, s, i, create);
    assert FateFits(s, i);
    forall n | 0 <= n < |next.operations| ensures OperationFits(next, next.operations[n]) {
      if n < |s.operations| { assert OperationFits(s, s.operations[n]); }
    }
  }

  // -------------------------------------------------------- every step

  lemma NothingAccounted()
    ensures Accounted(NOTHING)
  {
  }

  lemma OpenAccounts(s: State, request: Request)
    requires Accounted(s)
    ensures Accounted(Opened(s, request))
  {
    var next := Opened(s, request);
    forall i: nat ensures Stages(next, i) <==> Stages(s, i) {
    }
    forall i: nat | Stages(next, i) ensures FateFits(next, i) {
      assert FateFits(s, i);
    }
    forall n | 0 <= n < |next.operations| ensures OperationFits(next, next.operations[n]) {
      assert OperationFits(s, s.operations[n]);
    }
    forall id | id in next.files ensures exists i: nat :: Stages(next, i) && FileOf(next, i).id == id {
      var i: nat :| Stages(s, i) && FileOf(s, i).id == id;
      assert Stages(next, i);
    }
  }

  lemma AbandonAccounts(s: State, i: nat)
    requires Accounted(s) && i < |s.puts| && s.puts[i].phase.Receiving?
    ensures Accounted(Abandoned(s, i))
  {
    var next := Abandoned(s, i);
    forall j: nat ensures Stages(next, j) <==> Stages(s, j) {
    }
    forall j: nat | Stages(next, j) ensures FateFits(next, j) {
      assert FateFits(s, j);
    }
    SameOperationsFit(s, next, i);
    forall id | id in next.files ensures exists j: nat :: Stages(next, j) && FileOf(next, j).id == id {
      var j: nat :| Stages(s, j) && FileOf(s, j).id == id;
      assert Stages(next, j);
    }
  }

  lemma StagingAccounts(s: State, i: nat, staged: Staged)
    requires Accounted(s) && i < |s.puts| && s.puts[i].phase.Receiving? && staged.id !in s.issued
    ensures Accounted(FileStaged(s, i, staged))
  {
    var next := FileStaged(s, i, staged);
    SameOperationsFit(s, next, i);
    forall n | 0 <= n < |s.operations| ensures s.operations[n].maker != i {
      assert OperationFits(s, s.operations[n]);
    }
    assert !Stages(s, i) && FateFits(next, i);
    OwnPartSuffices(s, next, i);
  }

  lemma LeaveAccounts(s: State, next: State, i: nat)
    requires Accounted(s) && Leaves(s, next, i)
    ensures Accounted(next)
  {
    assert FateFits(s, i) && Stored(next, i) == Stored(s, i);
    SameOperationsFit(s, next, i);
    assert s.issued == s.issued + {FileOf(next, i).id} && s.partial == s.partial - {i};
    OwnPartSuffices(s, next, i);
  }

  lemma CreateAccounts(hash: Digest, s: State, i: nat, create: Create)
    requires Accounted(s) && i < |s.puts| && s.puts[i].phase.Queueing?
    ensures Accounted(Created(hash, s, i, create))
  {
    var next := Created(hash, s, i, create);
    MadeOperationFits(hash, s, i, create);
    CreateFate(hash, s, i, create);
    assert s.issued == s.issued + {FileOf(next, i).id} && s.partial == s.partial - {i};
    OwnPartSuffices(s, next, i);
  }

  lemma CreateFate(hash: Digest, s: State, i: nat, create: Create)
    requires Accounted(s) && i < |s.puts| && s.puts[i].phase.Queueing?
    ensures FateFits(Created(hash, s, i, create), i)
  {
    var next := Created(hash, s, i, create);
    assert FateFits(s, i) && !Stored(s, i);
    assert forall n :: 0 <= n < |s.operations| ==> next.operations[n].maker == s.operations[n].maker;
    if next.operations == s.operations {
      assert !Stored(next, i);
    } else {
      assert next.operations[|s.operations|].maker == i && Stored(next, i);
    }
  }

  /** A task's own steps that make no operation. */
  ghost predicate Works(s: State, next: State, i: nat)
    requires i < |s.puts|
  {
    match s.puts[i].phase
    case Checking(_) => next == Checked(s, i)
    case Requesting(staged) =>
      || next == RequestRefused(s, i)
      || exists payload, way ::
           NamesUpload(payload, staged.id) && Fits(s.puts[i].request.target, way)
           && next == RequestGranted(s, i, payload, way)
    case Comparing(_, _) => next == Compared(s, i)
    case Discarding(_, _) => next == Discarded(s, i)
    case _ => false
  }

  lemma WorkFate(s: State, next: State, i: nat)
    requires Accounted(s) && i < |s.puts| && Works(s, next, i)
    ensures Stages(next, i) && FateFits(next, i)
  {
    assert FateFits(s, i) && Stored(next, i) == Stored(s, i);
    if s.puts[i].phase.Comparing? { OwnCarries(s, i, s.puts[i].phase.answer); }
  }

  lemma PanicFate(s: State, i: nat)
    requires Accounted(s) && i < |s.puts| && InTask(s.puts[i].phase)
    ensures FateFits(Panicked(s, i), i)
  {
    assert FateFits(s, i) && Stored(Panicked(s, i), i) == Stored(s, i);
    CarriedIffStored(s, i);
  }

  /** Put `i` moves on, with its file or without it, and makes no operation. */
  ghost predicate MovesOn(s: State, next: State, i: nat) {
    && Stages(s, i) && Stages(next, i) && FileOf(s, i) == FileOf(next, i) && OnlyPut(s, next, i, FileOf(s, i).id)
    && next.issued == s.issued && next.partial == s.partial && next.operations == s.operations
  }

  lemma WorkMovesOn(s: State, next: State, i: nat)
    requires i < |s.puts| && Works(s, next, i)
    ensures MovesOn(s, next, i)
  {
  }

  lemma PanicMovesOn(s: State, i: nat)
    requires i < |s.puts| && InTask(s.puts[i].phase)
    ensures MovesOn(s, Panicked(s, i), i)
  {
  }

  lemma MoveAccounts(s: State, next: State, i: nat)
    requires Accounted(s) && i < |s.puts| && MovesOn(s, next, i) && FateFits(next, i)
    ensures Accounted(next)
  {
    SameOperationsFit(s, next, i);
    assert FileOf(s, i).id in s.issued && s.issued == s.issued + {FileOf(s, i).id};
    assert s.partial == s.partial - {i};
    OwnPartSuffices(s, next, i);
  }

  lemma StepAccounts(hash: Digest, s: State, next: State)
    requires Accounted(s) && Moves(hash)(s, next)
    ensures Accounted(next)
  {
    var i: nat :| MovesBy(hash, s, next, i) || Leaves(s, next, i);
    if Leaves(s, next, i) {
      LeaveAccounts(s, next, i);
    } else if i == |s.puts| {
      var request :| next == Opened(s, request);
      OpenAccounts(s, request);
    } else if s.puts[i].phase.Receiving? {
      if next == Abandoned(s, i) {
        AbandonAccounts(s, i);
      } else {
        var id: Id, content: string :| id !in s.issued && next == FileStaged(s, i, Staged(id, hash(content)));
        StagingAccounts(s, i, Staged(id, hash(content)));
      }
    } else if s.puts[i].phase.Queueing? && next != Panicked(s, i) {
      var create :| next == Created(hash, s, i, create);
      CreateAccounts(hash, s, i, create);
    } else if InTask(s.puts[i].phase) && next == Panicked(s, i) {
      PanicMovesOn(s, i);
      PanicFate(s, i);
      MoveAccounts(s, next, i);
    } else {
      WorkMovesOn(s, next, i);
      WorkFate(s, next, i);
      MoveAccounts(s, next, i);
    }
  }

  lemma RunAccounts(hash: Digest, s: State)
    requires Reaches(Moves(hash), NOTHING, s)
    ensures Accounted(s)
  {
    ghost var accounted := (x: State) => Accounted(x);
    NothingAccounted();
    forall a: State, b: State | accounted(a) && Moves(hash)(a, b) ensures accounted(b) {
      StepAccounts(hash, a, b);
    }
    ReachedStaysInside(Moves(hash), accounted, NOTHING, s);
  }

  // ---------------------------------------------------------- the theorems

  /** Every put was answered or given up. */
  predicate AllEnded(s: State) {
    forall i :: 0 <= i < |s.puts| ==> s.puts[i].phase.Dropped? || s.puts[i].phase.Ended?
  }

  /** The upload ids the operations carry, in order. */
  function UploadIds(s: State): seq<Option<string>> {
    seq(|s.operations|, n requires 0 <= n < |s.operations| => UploadOf(s.operations[n]))
  }

  /** The staged files are exactly the ones the operations carry. */
  ghost predicate Balanced(s: State) {
    forall id :: id in s.files <==> Some(id) in UploadIds(s)
  }

  lemma CarriedIds(s: State, id: Id)
    ensures Carried(s, id) <==> Some(id) in UploadIds(s)
  {
    if Carried(s, id) {
      var n :| 0 <= n < |s.operations| && OwnsUpload(s, n, id);
      assert UploadIds(s)[n] == Some(id);
    }
    if Some(id) in UploadIds(s) {
      var n :| 0 <= n < |UploadIds(s)| && UploadIds(s)[n] == Some(id);
      assert OwnsUpload(s, n, id);
    }
  }

  /** A file is staged exactly when carried, unless its put is harmed. */
  lemma EndedFate(s: State, i: nat)
    requires Accounted(s) && AllEnded(s) && i < |s.puts|
    ensures Harmed(s, i) ==> Stages(s, i)
    ensures Stages(s, i) ==>
      ((FileOf(s, i).id in s.files <==> Some(FileOf(s, i).id) in UploadIds(s)) <==> !Harmed(s, i))
  {
    if Stages(s, i) {
      assert FateFits(s, i);
      CarriedIffStored(s, i);
      CarriedIds(s, FileOf(s, i).id);
    }
  }

  /** A staged or carried file is some put's. */
  lemma StagedBy(s: State, id: Id) returns (i: nat)
    requires Accounted(s) && (id in s.files || Some(id) in UploadIds(s))
    ensures Stages(s, i) && FileOf(s, i).id == id
  {
    if id in s.files {
      i :| Stages(s, i) && FileOf(s, i).id == id;
    } else {
      var n :| 0 <= n < |UploadIds(s)| && UploadIds(s)[n] == Some(id);
      assert OperationFits(s, s.operations[n]);
      i := s.operations[n].maker;
    }
  }

  lemma BalancedIff(s: State)
    requires Accounted(s) && AllEnded(s)
    ensures Balanced(s) <==> forall i: nat :: i < |s.puts| ==> !Harmed(s, i)
  {
    forall i: nat | i < |s.puts| && Balanced(s) ensures !Harmed(s, i) {
      EndedFate(s, i);
    }
    if forall i: nat :: i < |s.puts| ==> !Harmed(s, i) {
      forall id ensures id in s.files <==> Some(id) in UploadIds(s) {
        if id in s.files || Some(id) in UploadIds(s) {
          var i := StagedBy(s, id);
          EndedFate(s, i);
        }
      }
    }
  }

  /** In every run, panics and errors included: the operations carry files of
      their own, whose content is what they were asked to copy, and once every
      put has ended no partial file is left, and the staged files are exactly the
      carried ones iff no put is harmed. */
  lemma UploadsConserved(hash: Digest, s: State)
    requires Reaches(Moves(hash), NOTHING, s) && AllEnded(s)
    ensures s.partial == {} && None !in UploadIds(s)
    ensures forall n, m :: 0 <= n < m < |s.operations| ==> UploadIds(s)[n] != UploadIds(s)[m]
    ensures forall n, id :: 0 <= n < |s.operations| && UploadIds(s)[n] == Some(id) && id in s.files ==>
      s.files[id] == s.operations[n].sha256
    ensures Balanced(s) <==> forall i: nat :: i < |s.puts| ==> !Harmed(s, i)
    ensures Balanced(s) ==> |s.files| == |s.operations|
  {
    RunAccounts(hash, s);
    BalancedIff(s);
    forall n | 0 <= n < |s.operations| ensures OperationFits(s, s.operations[n]) && UploadIds(s)[n].Some? {
    }
    forall n, id | 0 <= n < |s.operations| && UploadIds(s)[n] == Some(id) && id in s.files
      ensures s.files[id] == s.operations[n].sha256
    {
      assert FateFits(s, s.operations[n].maker);
    }
    assert forall i: nat :: i !in s.partial;
    if Balanced(s) { DistinctOptions(UploadIds(s), s.files.Keys); }
  }

  /** Without a panic the files are conserved iff no create stored an operation and
      then answered an error. */
  lemma CreateHarmlessIff(hash: Digest, s: State)
    requires Reaches(Moves(hash), NOTHING, s) && AllEnded(s) && s.history.panicked == {}
    ensures Balanced(s) <==> s.history.unrecorded == {}
  {
    RunAccounts(hash, s);
    BalancedIff(s);
    if i :| i in s.history.unrecorded {
      assert Stages(s, i) && Harmed(s, i);
    }
  }

  /** The put ended with this file, and its history is this. */
  predicate StaysEnded(s: State, i: nat, staged: Staged, mishandled: bool) {
    && i < |s.puts| && s.puts[i].phase == Ended(staged, Refused)
    && i in s.history.panicked && (i in s.history.mishandled <==> mishandled)
  }

  lemma StepStaysEnded(hash: Digest, s: State, next: State, i: nat, staged: Staged, mishandled: bool)
    requires StaysEnded(s, i, staged, mishandled) && Moves(hash)(s, next)
    ensures StaysEnded(next, i, staged, mishandled)
  {
  }

  /** A panic of the task decides over its file for good: whatever goes on later,
      the file is there exactly when an operation carries it, iff the handler was
      waiting exactly while no operation carried it. */
  lemma PanicHarmlessIff(hash: Digest, s: State, i: nat, later: State)
    requires Reaches(Moves(hash), NOTHING, s) && i < |s.puts| && InTask(s.puts[i].phase)
    requires Reaches(Moves(hash), Panicked(s, i), later)
    ensures var id := s.puts[i].phase.staged.id;
      (id in later.files <==> Carried(later, id)) <==> (s.puts[i].connected <==> !Carried(s, id))
  {
    var next, staged := Panicked(s, i), s.puts[i].phase.staged;
    RunAccounts(hash, s);
    assert FateFits(s, i) && MovesBy(hash, s, next, i);
    ReachesFurther(Moves(hash), NOTHING, s, next);
    ReachesTransitive(Moves(hash), NOTHING, next, later);
    RunAccounts(hash, later);
    var harmful := !HarmlessPanic(s, i);
    ghost var ended := (x: State) => StaysEnded(x, i, staged, harmful);
    forall a: State, b: State | ended(a) && Moves(hash)(a, b) ensures ended(b) {
      StepStaysEnded(hash, a, b, i, staged, harmful);
    }
    ReachedStaysInside(Moves(hash), ended, next, later);
    assert FateFits(later, i);
    CarriedIffStored(later, i);
  }

  // -------------------------------------------------------------- runs

  /** One put, alone, up to its create. */
  lemma LonePut(hash: Digest, request: Request, way: Way, payload: Json) returns (s: State)
    requires request.declared.None? && Fits(request.target, way) && NamesUpload(payload, "a")
    ensures Reaches(Moves(hash), NOTHING, s)
    ensures s.puts == [Put(request, Queueing(Staged("a", hash("")), payload), true, Some(way))]
    ensures s.files == map["a" := hash("")] && s.operations == [] && s.history == NOTHING.history && s.issued == {"a"}
  {
    ReachesItself(Moves(hash), NOTHING);
    var begun := Opened(NOTHING, request);
    Take(hash, NOTHING, NOTHING, begun, 0);
    var received := FileStaged(begun, 0, Staged("a", hash("")));
    Take(hash, NOTHING, begun, received, 0);
    var checked := Checked(received, 0);
    Take(hash, NOTHING, received, checked, 0);
    s := RequestGranted(checked, 0, payload, way);
    Take(hash, NOTHING, checked, s, 0);
  }

  lemma Take(hash: Digest, start: State, s: State, next: State, i: nat)
    requires Reaches(Moves(hash), start, s) && (MovesBy(hash, s, next, i) || Leaves(s, next, i))
    ensures Reaches(Moves(hash), start, next)
  {
    ReachesFurther(Moves(hash), start, s, next);
  }

  function Naming(id: Id): (payload: Json)
    ensures NamesUpload(payload, id)
  {
    Obj(map["uploadId" := Str(id)])
  }

  function FirstOperation(hash: Digest, request: Request, way: Way): Operation {
    Operation(Some(Naming("a")), RequestKey(hash, request, hash("")), request, Some(way), hash(""), 0)
  }

  /** One put whose create ended so. */
  lemma LoneCreate(hash: Digest, request: Request, way: Way, create: Create) returns (s: State)
    requires request.declared.None? && Fits(request.target, way) && !create.Denied?
    ensures Reaches(Moves(hash), NOTHING, s) && s.files == map["a" := hash("")]
    ensures s.operations == [FirstOperation(hash, request, way)]
    ensures var phase := if create.Answered? then Comparing(Staged("a", hash("")), 0)
      else Discarding(Staged("a", hash("")), Refused);
      s.puts == [Put(request, phase, true, Some(way))]
    ensures s.history == History(if create.Answered? then {} else {0}, {}, {}) && s.issued == {"a"}
  {
    var granted := LonePut(hash, request, way, Naming("a"));
    s := Created(hash, granted, 0, create);
    Take(hash, NOTHING, granted, s, 0);
  }

  /** One put whose operation is stored but not recorded in the audit log: the
      file is discarded, and the operation is left without it. */
  lemma UnrecordedCreateLosesFile(hash: Digest, request: Request) returns (s: State)
    requires request.declared.None?
    ensures Reaches(Moves(hash), NOTHING, s) && AllEnded(s) && |s.operations| == 1 && s.files == map[]
  {
    var created := LoneCreate(hash, request, Resolve(request.target, "", Agent), Unrecorded);
    s := Discarded(created, 0);
    Take(hash, NOTHING, created, s, 0);
  }

  /** One put whose task panics right after its create was answered: the waiting
      handler discards the operation's file. */
  lemma PanicLosesFile(hash: Digest, request: Request) returns (s: State)
    requires request.declared.None?
    ensures Reaches(Moves(hash), NOTHING, s) && AllEnded(s) && |s.operations| == 1 && s.files == map[]
    ensures s.history.unrecorded == {}
  {
    var created := LoneCreate(hash, request, Resolve(request.target, "", Agent), Answered);
    s := Panicked(created, 0);
    Take(hash, NOTHING, created, s, 0);
  }

  /** One put whose client leaves and whose task then panics before its create:
      nobody discards the file. */
  lemma PanicLeaksFile(hash: Digest, request: Request) returns (s: State)
    requires request.declared.None?
    ensures Reaches(Moves(hash), NOTHING, s) && AllEnded(s) && s.operations == [] && s.files == map["a" := hash("")]
  {
    var granted := LonePut(hash, request, Resolve(request.target, "", Agent), Naming("a"));
    var left := Disconnected(granted, 0);
    Take(hash, NOTHING, granted, left, 0);
    s := Panicked(left, 0);
    Take(hash, NOTHING, left, s, 0);
  }

  /** The one way an unrecorded create is made up for: the client leaves, and the
      task panics before it discards the operation's file. */
  lemma PanicSavesFile(hash: Digest, request: Request) returns (s: State)
    requires request.declared.None?
    ensures Reaches(Moves(hash), NOTHING, s) && AllEnded(s) && s.history.unrecorded == {0} && Balanced(s)
  {
    var created := LoneCreate(hash, request, Resolve(request.target, "", Agent), Unrecorded);
    var left := Disconnected(created, 0);
    Take(hash, NOTHING, created, left, 0);
    s := Panicked(left, 0);
    assert OwnsUpload(left, 0, "a");
    Take(hash, NOTHING, left, s, 0);
    RunAccounts(hash, s);
    BalancedIff(s);
  }

  lemma {:induction false} DistinctOptions(ids: seq<Option<string>>, staged: set<string>)
    requires None !in ids && forall n, m :: 0 <= n < m < |ids| ==> ids[n] != ids[m]
    requires forall id :: id in staged <==> Some(id) in ids
    ensures |staged| == |ids|
  {
    if ids == [] {
      assert staged == {};
    } else {
      var last := |ids| - 1;
      assert ids[last] in ids && ids == ids[..last] + [ids[last]];
      DistinctOptions(ids[..last], staged - {ids[last].value});
    }
  }
}
