/** What a repeated key answers: one operation per key, and never another file. */
module UploadReplay {
  import opened Wrappers
  import opened Graph
  import opened ScopedKeys
  import opened UploadSteps
  import opened UploadOwnership

  // ------------------------------------------------------- what a key binds

  /** Every digest is a text of one length. */
  ghost predicate OneLength(hash: Digest) {
    forall a :: |hash(a)| == 64
  }

  /** The put staged a file, and came with a key. */
  predicate Binds(s: State, i: int) {
    Stages(s, i) && s.puts[i].request.key.Some?
  }

  /** The text that put `i` binds its key to. */
  function Bound(s: State, i: int): string
    requires Stages(s, i)
  {
    BindingText(s.puts[i].request.path, s.puts[i].request.overwrite, FileOf(s, i).sha256)
  }

  /** The digest does not collide on the texts that the keys of this run bind. */
  predicate Apart(hash: Digest, s: State) {
    forall i, j :: 0 <= i < |s.puts| && 0 <= j < |s.puts| && Binds(s, i) && Binds(s, j) ==>
      hash(Bound(s, i)) == hash(Bound(s, j)) ==> Bound(s, i) == Bound(s, j)
  }

  /** One route, caller, lease or machine, and key. */
  predicate SameScope(r: Request, other: Request) {
    && r.target.Kind() == other.target.Kind() && r.principal == other.principal && r.target.id == other.target.id
    && r.key == other.key
  }

  /** The operation copies the same file to the same lease or machine and path, for
      the same caller. */
  predicate SameCopy(r: Request, sha256: string, other: Request, otherSha256: string) {
    && r.target.Kind() == other.target.Kind() && r.principal == other.principal && r.target.id == other.target.id
    && r.path == other.path && r.overwrite == other.overwrite && sha256 == otherSha256
  }

  lemma BindingTextInjective(path: string, overwrite: bool, sha256: string, path2: string, overwrite2: bool,
                             sha2: string)
    requires |sha256| == |sha2|
    requires BindingText(path, overwrite, sha256) == BindingText(path2, overwrite2, sha2)
    ensures path == path2 && overwrite == overwrite2 && sha256 == sha2
  {
    var a, b := path + ['\0'] + FlagText(overwrite) + ['\0'], path2 + ['\0'] + FlagText(overwrite2) + ['\0'];
    SameEnds(a, sha256, b, sha2);
    assert a[|a| - 3] == FlagText(overwrite)[|FlagText(overwrite)| - 2];
    assert b[|b| - 3] == FlagText(overwrite2)[|FlagText(overwrite2)| - 2];
    assert "true"[2] == 'u' && "false"[3] == 's';
    var flag := ['\0'] + FlagText(overwrite) + ['\0'];
    assert a == path + flag && b == path2 + flag;
    SameEnds(path, flag, path2, flag);
  }

  lemma SameEnds(a: string, x: string, b: string, y: string)
    requires a + x == b + y && |x| == |y|
    ensures a == b && x == y
  {
    assert (a + x)[..|a|] == a && (b + y)[..|b|] == b;
    assert (a + x)[|a|..] == x && (b + y)[|b|..] == y;
  }

  /** Two puts have one key iff scope and digest of the bound text are one. */
  lemma KeyScopes(hash: Digest, r: Request, sha256: string, other: Request, otherSha256: string)
    requires r.key.Some? && other.key.Some?
    ensures RequestKey(hash, r, sha256) == RequestKey(hash, other, otherSha256) <==>
      SameScope(r, other)
        && hash(BindingText(r.path, r.overwrite, sha256)) == hash(BindingText(other.path, other.overwrite, otherSha256))
  {
    var text, text2 := BindingText(r.path, r.overwrite, sha256), BindingText(other.path, other.overwrite, otherSha256);
    var parts, parts2 := [r.target.id, hash(text), r.key.value], [other.target.id, hash(text2), other.key.value];
    if RequestKey(hash, r, sha256) == RequestKey(hash, other, otherSha256) {
      ScopedKeyInjective(r.target.Kind(), r.principal, parts, other.target.Kind(), other.principal, parts2);
      assert parts[0] == parts2[0] && parts[1] == parts2[1] && parts[2] == parts2[2];
    }
  }

  /** Within a scope, the bound text says which copy is asked for. */
  lemma TextTellsCopy(r: Request, sha256: string, other: Request, otherSha256: string)
    requires SameScope(r, other) && |sha256| == |otherSha256|
    ensures SameCopy(r, sha256, other, otherSha256) <==>
      BindingText(r.path, r.overwrite, sha256) == BindingText(other.path, other.overwrite, otherSha256)
  {
    if BindingText(r.path, r.overwrite, sha256) == BindingText(other.path, other.overwrite, otherSha256) {
      BindingTextInjective(r.path, r.overwrite, sha256, other.path, other.overwrite, otherSha256);
    }
  }

  lemma Kinds(a: Target, b: Target)
    ensures a.Kind() == b.Kind() <==> (a.Lease? <==> b.Lease?)
  {
    assert "lab-put"[0] == 'l' && "machine-put"[0] == 'm';
  }

  // --------------------------------------------------------- the invariant

  /** The operation a put was answered with, as far as it got. */
  function AnswerOf(p: Phase): Option<nat> {
    match p
    case Comparing(_, n) => Some(n)
    case Discarding(_, Accepted(n)) => Some(n)
    case Ended(_, Accepted(n)) => Some(n)
    case _ => None
  }

  ghost predicate IsDigest(hash: Digest, sha256: string) {
    exists content :: sha256 == hash(content)
  }

  ghost predicate Digested(hash: Digest, s: State) {
    forall i :: 0 <= i < |s.puts| && HasFile(s.puts[i].phase) ==> IsDigest(hash, s.puts[i].phase.staged.sha256)
  }

  predicate Keyed(hash: Digest, s: State) {
    && (forall n :: 0 <= n < |s.operations| ==>
      s.operations[n].key == RequestKey(hash, s.operations[n].asked, s.operations[n].sha256))
    && (forall n, m :: 0 <= n < m < |s.operations| && s.operations[n].key.Some? ==>
          s.operations[n].key != s.operations[m].key)
  }

  /** A put is answered with the operation under its key, or with the one it made. */
  predicate Faithful(hash: Digest, s: State, i: nat)
    requires i < |s.puts|
  {
    var put := s.puts[i];
    AnswerOf(put.phase).Some? ==>
      && AnswerOf(put.phase).value < |s.operations|
      && var operation := s.operations[AnswerOf(put.phase).value];
         && operation.key == RequestKey(hash, put.request, put.phase.staged.sha256)
         && (put.request.key.None? ==> operation.maker == i)
  }

  /** Past its digest check, a put's file hashes as declared. */
  predicate Declared(put: Put) {
    (put.phase.Requesting? || put.phase.Queueing? || AnswerOf(put.phase).Some?) && put.request.declared.Some? ==>
      put.request.declared.value == put.phase.staged.sha256
  }

  ghost predicate Answered(hash: Digest, s: State) {
    Digested(hash, s) && Keyed(hash, s) && forall i :: 0 <= i < |s.puts| ==> Faithful(hash, s, i) && Declared(s.puts[i])
  }

  lemma OperationsStay(hash: Digest, s: State, next: State, i: nat)
    requires Answered(hash, s) && i < |s.puts| == |next.puts| && next.puts == s.puts[i := next.puts[i]]
    requires next.operations == s.operations && next.puts[i].request == s.puts[i].request
    requires HasFile(next.puts[i].phase) ==> IsDigest(hash, next.puts[i].phase.staged.sha256)
    requires Faithful(hash, next, i) && Declared(next.puts[i])
    ensures Answered(hash, next)
  {
    forall j | 0 <= j < |next.puts| ensures Faithful(hash, next, j) && Declared(next.puts[j]) {
      if j != i { assert next.puts[j] == s.puts[j] && Faithful(hash, s, j) && Declared(s.puts[j]); }
    }
  }

  /** A create that stores nothing new. */
  lemma ReplayAnswers(hash: Digest, s: State, i: nat, create: Create)
    requires Answered(hash, s) && i < |s.puts| && s.puts[i].phase.Queueing?
    requires Created(hash, s, i, create).operations == s.operations
    ensures Answered(hash, Created(hash, s, i, create))
  {
    var next := Created(hash, s, i, create);
    assert Declared(s.puts[i]);
    OperationsStay(hash, s, next, i);
  }

  lemma MadeKeyed(hash: Digest, s: State, i: nat, create: Create)
    requires Keyed(hash, s) && i < |s.puts| && s.puts[i].phase.Queueing?
    requires Created(hash, s, i, create).operations != s.operations
    ensures Keyed(hash, Created(hash, s, i, create))
  {
  }

  /** Operations are only added, and put `j` is left alone. */
  lemma StaysFaithful(hash: Digest, s: State, next: State, j: nat)
    requires j < |s.puts| && Faithful(hash, s, j) && s.operations <= next.operations
    requires j < |next.puts| && next.puts[j] == s.puts[j]
    ensures Faithful(hash, next, j)
  {
  }

  lemma MakerFaithful(hash: Digest, s: State, i: nat, create: Create)
    requires i < |s.puts| && s.puts[i].phase.Queueing?
    requires Created(hash, s, i, create).operations != s.operations
    ensures Faithful(hash, Created(hash, s, i, create), i)
  {
    assert Created(hash, s, i, create).operations[|s.operations|].asked == s.puts[i].request;
  }

  /** A create that stores an operation. */
  lemma StoreAnswers(hash: Digest, s: State, i: nat, create: Create)
    requires Answered(hash, s) && i < |s.puts| && s.puts[i].phase.Queueing?
    requires Created(hash, s, i, create).operations != s.operations
    ensures Answered(hash, Created(hash, s, i, create))
  {
    var next := Created(hash, s, i, create);
    MadeKeyed(hash, s, i, create);
    MakerFaithful(hash, s, i, create);
    assert Declared(s.puts[i]);
    forall j | 0 <= j < |next.puts| ensures Faithful(hash, next, j) && Declared(next.puts[j]) {
      if j != i {
        assert Declared(s.puts[j]);
        StaysFaithful(hash, s, next, j);
      }
    }
  }

  lemma CreateAnswers(hash: Digest, s: State, i: nat, create: Create)
    requires Answered(hash, s) && i < |s.puts| && s.puts[i].phase.Queueing?
    ensures Answered(hash, Created(hash, s, i, create))
  {
    if Created(hash, s, i, create).operations == s.operations {
      ReplayAnswers(hash, s, i, create);
    } else {
      StoreAnswers(hash, s, i, create);
    }
  }

  lemma OpenAnswers(hash: Digest, s: State, next: State, request: Request)
    requires Answered(hash, s) && next == Opened(s, request)
    ensures Answered(hash, next)
  {
    forall j | 0 <= j < |next.puts| ensures Faithful(hash, next, j) && Declared(next.puts[j]) {
      if j < |s.puts| { assert next.puts[j] == s.puts[j] && Faithful(hash, s, j) && Declared(s.puts[j]); }
    }
  }

  lemma LeaveAnswers(hash: Digest, s: State, next: State, i: nat)
    requires Answered(hash, s) && Leaves(s, next, i)
    ensures Answered(hash, next)
  {
    assert Faithful(hash, s, i) && Declared(s.puts[i]);
    OperationsStay(hash, s, next, i);
  }

  /** Before its file is staged a put has nothing to answer for. */
  lemma ReceivingAnswers(hash: Digest, s: State, next: State, i: nat)
    requires Answered(hash, s) && i < |s.puts| && s.puts[i].phase.Receiving? && MovesBy(hash, s, next, i)
    ensures Answered(hash, next)
  {
    OperationsStay(hash, s, next, i);
  }

  lemma TaskAnswers(hash: Digest, s: State, next: State, i: nat)
    requires Answered(hash, s) && i < |s.puts| && MovesBy(hash, s, next, i)
    requires InTask(s.puts[i].phase) && next.operations == s.operations
    requires s.puts[i].phase.Queueing? ==> next == Panicked(s, i)
    ensures Answered(hash, next)
  {
    assert Faithful(hash, s, i) && Declared(s.puts[i]);
    OnePutMoves(hash, s, next, i);
    OperationsStay(hash, s, next, i);
  }

  lemma StepAnswers(hash: Digest, s: State, next: State)
    requires Answered(hash, s) && Moves(hash)(s, next)
    ensures Answered(hash, next)
  {
    var i: nat :| MovesBy(hash, s, next, i) || Leaves(s, next, i);
    if Leaves(s, next, i) {
      LeaveAnswers(hash, s, next, i);
    } else if i == |s.puts| {
      var request :| next == Opened(s, request);
      OpenAnswers(hash, s, next, request);
    } else if s.puts[i].phase.Receiving? {
      ReceivingAnswers(hash, s, next, i);
    } else if s.puts[i].phase.Queueing? && next != Panicked(s, i) {
      var create :| next == Created(hash, s, i, create);
      CreateAnswers(hash, s, i, create);
    } else {
      TaskAnswers(hash, s, next, i);
    }
  }

  // ---------------------------------------------------------- the theorem

  lemma RunAnswers(hash: Digest, s: State)
    requires Reaches(Moves(hash), NOTHING, s)
    ensures Answered(hash, s)
  {
    ghost var answered := (x: State) => Answered(hash, x);
    forall a: State, b: State | answered(a) && Moves(hash)(a, b) ensures answered(b) {
      StepAnswers(hash, a, b);
    }
    ReachedStaysInside(Moves(hash), answered, NOTHING, s);
  }

  /** The operation a put was answered with is that of a put with the same key. */
  lemma AnswerKnown(hash: Digest, s: State, i: nat, staged: Staged, n: nat) returns (first: nat)
    requires Reaches(Moves(hash), NOTHING, s)
    requires i < |s.puts| && s.puts[i].phase == Ended(staged, Accepted(n))
    ensures n < |s.operations| && Stages(s, first) && OperationFits(s, s.operations[n])
    ensures first == s.operations[n].maker && (s.puts[i].request.key.None? ==> first == i)
    ensures s.operations[n].key == RequestKey(hash, s.puts[i].request, staged.sha256)
    ensures SameScope(s.puts[first].request, s.puts[i].request)
    ensures hash(Bound(s, first)) == hash(Bound(s, i))
  {
    RunAnswers(hash, s);
    RunAccounts(hash, s);
    assert Faithful(hash, s, i) && OperationFits(s, s.operations[n]);
    first := s.operations[n].maker;
    if first != i {
      assert s.operations[n].key == RequestKey(hash, s.puts[first].request, FileOf(s, first).sha256);
      KeyScopes(hash, s.puts[first].request, FileOf(s, first).sha256, s.puts[i].request, staged.sha256);
    }
  }

  lemma OneLengthStaged(hash: Digest, s: State, i: nat)
    requires OneLength(hash) && Reaches(Moves(hash), NOTHING, s) && Stages(s, i)
    ensures |FileOf(s, i).sha256| == 64
  {
    RunAnswers(hash, s);
    assert IsDigest(hash, s.puts[i].phase.staged.sha256);
  }

  /** In every run a key has at most one operation. A put accepted with an operation,
      new or replayed, has the route, caller, lease or machine and key of the put
      `first` that stored it, and the digests of what their keys bind agree. The
      operation copies what the put asked for iff the texts agree, which they do
      unless the digest collides on texts that keys of this run bind; then it is what
      the caller declared. */
  lemma ReplayIsFaithful(hash: Digest, s: State, i: nat, staged: Staged, n: nat) returns (first: nat)
    requires OneLength(hash) && Reaches(Moves(hash), NOTHING, s)
    requires i < |s.puts| && s.puts[i].phase == Ended(staged, Accepted(n))
    ensures n < |s.operations| && Stages(s, first) && (s.puts[i].request.key.None? ==> first == i)
    ensures s.operations[n].asked == s.puts[first].request && s.operations[n].sha256 == FileOf(s, first).sha256
    ensures SameScope(s.operations[n].asked, s.puts[i].request) && hash(Bound(s, first)) == hash(Bound(s, i))
    ensures SameCopy(s.operations[n].asked, s.operations[n].sha256, s.puts[i].request, staged.sha256) <==>
      Bound(s, first) == Bound(s, i)
    ensures Apart(hash, s) ==>
      && SameCopy(s.operations[n].asked, s.operations[n].sha256, s.puts[i].request, staged.sha256)
      && (s.puts[i].request.declared.Some? ==> s.puts[i].request.declared.value == s.operations[n].sha256)
    ensures forall m ::
      0 <= m < |s.operations| && s.operations[m].key.Some? && s.operations[m].key == s.operations[n].key ==> m == n
  {
    first := AnswerKnown(hash, s, i, staged, n);
    RunAnswers(hash, s);
    OneLengthStaged(hash, s, i);
    OneLengthStaged(hash, s, first);
    TextTellsCopy(s.puts[first].request, FileOf(s, first).sha256, s.puts[i].request, staged.sha256);
    assert Declared(s.puts[i]);
    if Apart(hash, s) && first != i { assert Binds(s, first) && Binds(s, i); }
  }

  /** Two puts with keys are accepted with one operation iff route, caller, lease or
      machine, key and the digest of the bound text agree; unless the digest collides
      on texts that this run's keys bind, iff they ask for one copy under one key. */
  lemma SameKeySameAnswer(hash: Digest, s: State, i: nat, staged: Staged, n: nat, j: nat, other: Staged, m: nat)
    requires Reaches(Moves(hash), NOTHING, s) && i < |s.puts| && j < |s.puts|
    requires s.puts[i].phase == Ended(staged, Accepted(n)) && s.puts[i].request.key.Some?
    requires s.puts[j].phase == Ended(other, Accepted(m)) && s.puts[j].request.key.Some?
    ensures n == m <==>
      SameScope(s.puts[i].request, s.puts[j].request) && hash(Bound(s, i)) == hash(Bound(s, j))
    ensures OneLength(hash) && Apart(hash, s) ==> (n == m <==>
      SameCopy(s.puts[i].request, staged.sha256, s.puts[j].request, other.sha256)
        && s.puts[i].request.key == s.puts[j].request.key)
  {
    var first := AnswerKnown(hash, s, i, staged, n);
    var second := AnswerKnown(hash, s, j, other, m);
    if s.operations[n].key == s.operations[m].key { OneOperationEach(hash, s, n, m); }
    KeyScopes(hash, s.puts[i].request, staged.sha256, s.puts[j].request, other.sha256);
    if OneLength(hash) && Apart(hash, s) {
      OneLengthStaged(hash, s, i);
      OneLengthStaged(hash, s, j);
      assert Binds(s, i) && Binds(s, j);
      if SameScope(s.puts[i].request, s.puts[j].request) {
        TextTellsCopy(s.puts[i].request, staged.sha256, s.puts[j].request, other.sha256);
      }
    }
  }

  lemma OneOperationEach(hash: Digest, s: State, n: nat, m: nat)
    requires Reaches(Moves(hash), NOTHING, s) && n < |s.operations| && m < |s.operations|
    requires s.operations[n].key.Some? && s.operations[n].key == s.operations[m].key
    ensures n == m
  {
    RunAnswers(hash, s);
  }

  // ------------------------------------------------- the way to the machine

  /** The put's request was granted, so it was resolved. */
  predicate Granted(p: Phase) {
    p.Queueing? || AnswerOf(p).Some?
  }

  predicate WayKnown(put: Put) {
    && (put.way.Some? ==> Fits(put.request.target, put.way.value))
    && (Granted(put.phase) ==> put.way.Some?)
  }

  /** An operation goes the way that its maker's request was resolved to. */
  predicate GoesMakersWay(s: State, operation: Operation) {
    operation.maker < |s.puts| && operation.way.Some? && operation.way == s.puts[operation.maker].way
  }

  predicate WaysKnown(s: State) {
    && (forall i :: 0 <= i < |s.puts| ==> WayKnown(s.puts[i]))
    && forall n :: 0 <= n < |s.operations| ==> GoesMakersWay(s, s.operations[n])
  }

  lemma MoveKnows(hash: Digest, s: State, next: State, i: nat)
    requires i < |s.puts| && MovesBy(hash, s, next, i) && WayKnown(s.puts[i])
    ensures i < |next.puts| && WayKnown(next.puts[i])
    ensures next.puts[i].way == s.puts[i].way || s.puts[i].phase.Requesting?
  {
    OnePutMoves(hash, s, next, i);
    if InTask(s.puts[i].phase) && next == Panicked(s, i) {
      assert next.puts[i].phase.Ended? && next.puts[i].phase.outcome.Refused?;
    } else if s.puts[i].phase.Requesting? && next != RequestRefused(s, i) {
      var payload, way :| Fits(s.puts[i].request.target, way) && next == RequestGranted(s, i, payload, way);
    } else {
      assert next.puts[i].way == s.puts[i].way;
    }
  }

  lemma MadeKnows(hash: Digest, s: State, next: State, i: nat)
    requires i < |s.puts| && MovesBy(hash, s, next, i) && WayKnown(s.puts[i])
    ensures s.operations <= next.operations
    ensures forall n :: |s.operations| <= n < |next.operations| ==>
      && s.puts[i].phase.Queueing? && next.operations[n].maker == i
      && next.operations[n].way == s.puts[i].way && s.puts[i].way.Some?
  {
  }

  lemma LeaveKnows(s: State, next: State, i: nat)
    requires WaysKnown(s) && Leaves(s, next, i)
    ensures WaysKnown(next)
  {
    forall j | 0 <= j < |next.puts| ensures WayKnown(next.puts[j]) {
      assert WayKnown(s.puts[j]);
    }
    forall n | 0 <= n < |next.operations| ensures GoesMakersWay(next, next.operations[n]) {
      assert GoesMakersWay(s, s.operations[n]);
    }
  }

  lemma OpenKnows(s: State, request: Request)
    requires WaysKnown(s)
    ensures WaysKnown(Opened(s, request))
  {
    var next := Opened(s, request);
    forall j | 0 <= j < |next.puts| ensures WayKnown(next.puts[j]) {
      if j < |s.puts| { assert next.puts[j] == s.puts[j] && WayKnown(s.puts[j]); }
    }
    forall n | 0 <= n < |next.operations| ensures GoesMakersWay(next, next.operations[n]) {
      assert GoesMakersWay(s, s.operations[n]);
    }
  }

  /** A put that is still to be granted has stored nothing. */
  lemma NotYetMaker(s: State, i: nat, n: nat)
    requires Accounted(s) && i < |s.puts| && s.puts[i].phase.Requesting? && n < |s.operations|
    ensures s.operations[n].maker != i
  {
    assert FateFits(s, i) && !Stored(s, i);
  }

  lemma StepKnows(hash: Digest, s: State, next: State)
    requires Accounted(s) && WaysKnown(s) && Moves(hash)(s, next)
    ensures WaysKnown(next)
  {
    var i: nat :| MovesBy(hash, s, next, i) || Leaves(s, next, i);
    if Leaves(s, next, i) {
      LeaveKnows(s, next, i);
    } else if i == |s.puts| {
      var request :| next == Opened(s, request);
      OpenKnows(s, request);
    } else {
      assert WayKnown(s.puts[i]);
      MoveKnows(hash, s, next, i);
      MadeKnows(hash, s, next, i);
      OnePutMoves(hash, s, next, i);
      PutMovesKnows(s, next, i);
    }
  }

  lemma PutMovesKnows(s: State, next: State, i: nat)
    requires Accounted(s) && WaysKnown(s) && i < |s.puts| && |next.puts| == |s.puts|
    requires next.puts == s.puts[i := next.puts[i]] && WayKnown(next.puts[i])
    requires next.puts[i].way == s.puts[i].way || s.puts[i].phase.Requesting?
    requires s.operations <= next.operations
    requires forall n :: |s.operations| <= n < |next.operations| ==>
      && s.puts[i].phase.Queueing? && next.operations[n].maker == i
      && next.operations[n].way == s.puts[i].way && s.puts[i].way.Some?
    ensures WaysKnown(next)
  {
    forall j | 0 <= j < |next.puts| ensures WayKnown(next.puts[j]) {
      if j != i { assert next.puts[j] == s.puts[j] && WayKnown(s.puts[j]); }
    }
    forall n | 0 <= n < |next.operations| ensures GoesMakersWay(next, next.operations[n]) {
      if n < |s.operations| {
        assert next.operations[n] == s.operations[n] && GoesMakersWay(s, s.operations[n]);
        if s.puts[i].phase.Requesting? { NotYetMaker(s, i, n); }
      }
    }
  }

  lemma RunKnows(hash: Digest, s: State)
    requires Reaches(Moves(hash), NOTHING, s)
    ensures WaysKnown(s)
  {
    ghost var known := (x: State) => Accounted(x) && WaysKnown(x);
    NothingAccounted();
    forall a: State, b: State | known(a) && Moves(hash)(a, b) ensures known(b) {
      StepAccounts(hash, a, b);
      StepKnows(hash, a, b);
    }
    ReachedStaysInside(Moves(hash), known, NOTHING, s);
  }

  /** Two ways by their endpoint, authentication and guest system. */
  predicate SameReach(a: Way, b: Way) {
    a.ToMachine? && b.ToMachine? && a.endpoint == b.endpoint && a.auth == b.auth && a.guestOs == b.guestOs
  }

  /** A replay need not go the way the put's own request was resolved to: the key
      binds neither endpoint nor authentication nor guest system. It does iff the
      put goes to a lease, stored the operation itself, or was resolved to the same
      three as the put that did. */
  lemma ReplayReachesIff(hash: Digest, s: State, i: nat, staged: Staged, n: nat) returns (first: nat)
    requires Reaches(Moves(hash), NOTHING, s)
    requires i < |s.puts| && s.puts[i].phase == Ended(staged, Accepted(n))
    ensures n < |s.operations| && first < |s.puts| && HasFile(s.puts[first].phase)
    ensures UploadOf(s.operations[n]) == Some(s.puts[first].phase.staged.id)
    ensures s.operations[n].asked == s.puts[first].request && s.operations[n].way == s.puts[first].way
    ensures s.puts[i].request.key.None? ==> first == i
    ensures s.puts[i].way.Some? && Fits(s.puts[i].request.target, s.puts[i].way.value)
    ensures s.puts[first].way.Some? && Fits(s.puts[first].request.target, s.puts[first].way.value)
    ensures s.operations[n].way == s.puts[i].way <==>
      s.puts[i].request.target.Lease? || first == i || SameReach(s.puts[first].way.value, s.puts[i].way.value)
  {
    first := AnswerKnown(hash, s, i, staged, n);
    RunAnswers(hash, s);
    RunKnows(hash, s);
    assert Faithful(hash, s, i);
    assert GoesMakersWay(s, s.operations[n]) && WayKnown(s.puts[i]) && WayKnown(s.puts[first]);
    Kinds(s.puts[i].request.target, s.puts[first].request.target);
  }

  /** While open endpoints and authentication resolve as they do now: the replay goes
      the put's way iff the two requests resolve alike, whatever they spell out. */
  lemma StableReplayReachesIff(hash: Digest, s: State, i: nat, staged: Staged, n: nat, resolve: Target -> Way)
      returns (first: nat)
    requires Reaches(Moves(hash), NOTHING, s)
    requires i < |s.puts| && s.puts[i].phase == Ended(staged, Accepted(n))
    requires forall j :: 0 <= j < |s.puts| && s.puts[j].way.Some? ==>
      s.puts[j].way == Some(resolve(s.puts[j].request.target))
    ensures n < |s.operations| && first < |s.puts| && s.operations[n].asked == s.puts[first].request
    ensures s.operations[n].way == Some(resolve(s.puts[i].request.target)) <==>
      resolve(s.puts[first].request.target) == resolve(s.puts[i].request.target)
  {
    first := ReplayReachesIff(hash, s, i, staged, n);
  }

  // -------------------------------------------------------------- runs

  /** Two puts that stage the same bytes, and how the second was answered. */
  predicate PairEnds(hash: Digest, s: State, request: Request, way: Way, again: Request, other: Way, answer: nat) {
    && |s.puts| == 2 && s.puts[0].request == request && s.puts[1].request == again
    && s.puts[0].phase == Ended(Staged("a", hash("")), Accepted(0)) && s.puts[0].way == Some(way)
    && s.puts[1].phase == Ended(Staged("b", hash("")), Accepted(answer)) && s.puts[1].way == Some(other)
    && s.operations != [] && s.operations[0] == FirstOperation(hash, request, way)
  }

  /** A second put whose key is the first one's: it is answered with the first one's
      operation, and its own file is discarded. */
  lemma KeyRepeated(hash: Digest, request: Request, way: Way, again: Request, other: Way) returns (s: State)
    requires request.declared.None? && again.declared.None? && request.key.Some?
    requires RequestKey(hash, again, hash("")) == RequestKey(hash, request, hash(""))
    requires Fits(request.target, way) && Fits(again.target, other)
    ensures Reaches(Moves(hash), NOTHING, s) && |s.operations| == 1
    ensures PairEnds(hash, s, request, way, again, other, 0) && s.files == map["a" := hash("")]
  {
    var first := FirstAnswered(hash, request, way);
    var waiting := SecondPut(hash, first, again, other);
    assert FindKey(waiting.operations, RequestKey(hash, request, hash("")).value) == Some(0);
    var answered := Created(hash, waiting, 1, Create.Answered);
    Take(hash, NOTHING, waiting, answered, 1);
    s := RedundantDiscarded(hash, answered, Staged("b", hash("")));
    assert s.files == map["a" := hash("")] by { assert "b"[0] != "a"[0]; }
  }

  /** A second put whose key is another: it stores an operation of its own. */
  lemma KeyNotRepeated(hash: Digest, request: Request, way: Way, again: Request, other: Way) returns (s: State)
    requires request.declared.None? && again.declared.None? && again.key.Some?
    requires RequestKey(hash, again, hash("")) != RequestKey(hash, request, hash(""))
    requires Fits(request.target, way) && Fits(again.target, other)
    ensures Reaches(Moves(hash), NOTHING, s) && |s.operations| == 2
    ensures PairEnds(hash, s, request, way, again, other, 1) && s.files == map["a" := hash("")]["b" := hash("")]
  {
    var first := FirstAnswered(hash, request, way);
    var waiting := SecondPut(hash, first, again, other);
    assert FindKey(waiting.operations, RequestKey(hash, again, hash("")).value) == None;
    var answered := Created(hash, waiting, 1, Create.Answered);
    Take(hash, NOTHING, waiting, answered, 1);
    s := OwnKept(hash, answered, Staged("b", hash("")));
  }

  /** A put answered with an operation that carries its file is done. */
  lemma OwnKept(hash: Digest, s: State, staged: Staged) returns (next: State)
    requires Reaches(Moves(hash), NOTHING, s) && |s.puts| == 2 && s.puts[1].phase == Comparing(staged, 1)
    requires |s.operations| == 2 && s.operations[1].payload == Some(Naming(staged.id))
    ensures Reaches(Moves(hash), NOTHING, next) && next.operations == s.operations && next.files == s.files
    ensures next.puts == s.puts[1 := s.puts[1].(phase := Ended(staged, Accepted(1)))]
  {
    assert OwnsUpload(s, 1, staged.id);
    next := Compared(s, 1);
    Take(hash, NOTHING, s, next, 1);
  }

  lemma FirstAnswered(hash: Digest, request: Request, way: Way) returns (s: State)
    requires request.declared.None? && Fits(request.target, way)
    ensures Reaches(Moves(hash), NOTHING, s) && s.issued == {"a"} && s.files == map["a" := hash("")]
    ensures s.puts == [Put(request, Ended(Staged("a", hash("")), Accepted(0)), true, Some(way))]
    ensures s.operations == [FirstOperation(hash, request, way)]
  {
    var created := LoneCreate(hash, request, way, Create.Answered);
    assert OwnsUpload(created, 0, "a");
    s := Compared(created, 0);
    Take(hash, NOTHING, created, s, 0);
  }

  /** A put with a key, and then the same put to the same machine, resolved any other
      way, because it names another or because what both leave open resolves
      differently by then: it is answered with the first one's operation, which goes
      the first one's way, and its own file is discarded. */
  lemma ReplayGoesElsewhere(hash: Digest, request: Request, way: Way, target: Target, other: Way) returns (s: State)
    requires request.declared.None? && request.key.Some?
    requires request.target.Machine? && target.Machine? && target.id == request.target.id
    requires Fits(request.target, way) && Fits(target, other) && way != other
    ensures Reaches(Moves(hash), NOTHING, s) && |s.puts| == 2 && s.puts[1].request == request.(target := target)
    ensures s.puts[0].phase.Ended? && s.puts[0].phase.outcome == Accepted(0)
    ensures s.puts[1].phase == Ended(Staged("b", hash("")), Accepted(0)) && |s.operations| == 1
    ensures s.operations[0].way == Some(way) && s.puts[1].way == Some(other)
    ensures s.files == map["a" := hash("")]
  {
    var again := request.(target := target);
    KeyScopes(hash, request, hash(""), again, hash(""));
    s := KeyRepeated(hash, request, way, again, other);
  }

  /** Where the digest collides on what two puts to one place bind, the second is
      answered with the first one's operation, which does not copy what it asks. */
  lemma CollisionMisleads(hash: Digest, request: Request, way: Way, path: string) returns (s: State)
    requires OneLength(hash) && request.declared.None? && request.key.Some? && Fits(request.target, way)
    requires path != request.path
    requires hash(BindingText(path, request.overwrite, hash(""))) ==
      hash(BindingText(request.path, request.overwrite, hash("")))
    ensures Reaches(Moves(hash), NOTHING, s) && |s.operations| == 1 && !Apart(hash, s)
    ensures PairEnds(hash, s, request, way, request.(path := path), way, 0)
    ensures !SameCopy(s.operations[0].asked, s.operations[0].sha256, s.puts[1].request, hash(""))
  {
    var again := request.(path := path);
    KeyScopes(hash, request, hash(""), again, hash(""));
    s := KeyRepeated(hash, request, way, again, way);
    assert Binds(s, 0) && Binds(s, 1);
    TextTellsCopy(request, hash(""), again, hash(""));
  }

  /** Where it does not, both are answered with operations of their own. */
  lemma ApartIsMet(hash: Digest, request: Request, way: Way, path: string) returns (s: State)
    requires OneLength(hash) && request.declared.None? && request.key.Some? && Fits(request.target, way)
    requires hash(BindingText(path, request.overwrite, hash(""))) !=
      hash(BindingText(request.path, request.overwrite, hash("")))
    ensures Reaches(Moves(hash), NOTHING, s) && |s.operations| == 2 && Apart(hash, s)
    ensures PairEnds(hash, s, request, way, request.(path := path), way, 1)
  {
    var again := request.(path := path);
    KeyScopes(hash, request, hash(""), again, hash(""));
    s := KeyNotRepeated(hash, request, way, again, way);
    PairApart(hash, s);
  }

  lemma PairApart(hash: Digest, s: State)
    requires |s.puts| == 2 && Stages(s, 0) && Stages(s, 1) && hash(Bound(s, 0)) != hash(Bound(s, 1))
    ensures Apart(hash, s)
  {
  }

  /** A digest of one length: the first character, 64 times. */
  function FirstLetter(text: string): string {
    var c := if text == "" then ' ' else text[0];
    seq(64, i requires 0 <= i < 64 => c)
  }

  /** Such digests and runs exist: two accepted puts, with two texts bound. */
  lemma SuchRunsExist(request: Request, way: Way) returns (s: State)
    requires request.declared.None? && request.key.Some? && Fits(request.target, way) && request.path == "a"
    ensures OneLength(FirstLetter) && Reaches(Moves(FirstLetter), NOTHING, s) && Apart(FirstLetter, s)
    ensures PairEnds(FirstLetter, s, request, way, request.(path := "b"), way, 1)
  {
    var text := BindingText("a", request.overwrite, FirstLetter(""));
    var other := BindingText("b", request.overwrite, FirstLetter(""));
    assert text[0] == 'a' && other[0] == 'b';
    assert FirstLetter(text)[0] == 'a' && FirstLetter(other)[0] == 'b';
    s := ApartIsMet(FirstLetter, request, way, "b");
  }

  /** A second put of the same bytes, up to its create. */
  lemma SecondPut(hash: Digest, s: State, request: Request, way: Way) returns (next: State)
    requires Reaches(Moves(hash), NOTHING, s) && |s.puts| == 1 && s.issued == {"a"} && request.declared.None?
    requires Fits(request.target, way)
    ensures Reaches(Moves(hash), NOTHING, next)
    ensures next.puts == s.puts + [SecondWaiting(hash, request, way)]
    ensures next.operations == s.operations && next.files == s.files["b" := hash("")]
  {
    var begun := Opened(s, request);
    Take(hash, NOTHING, s, begun, 1);
    assert "b" !in s.issued by { assert "b"[0] != "a"[0]; }
    var received := FileStaged(begun, 1, Staged("b", hash("")));
    Take(hash, NOTHING, begun, received, 1);
    var checked := Checked(received, 1);
    Take(hash, NOTHING, received, checked, 1);
    assert NamesUpload(Naming("b"), "b");
    next := RequestGranted(checked, 1, Naming("b"), way);
    Take(hash, NOTHING, checked, next, 1);
  }

  function SecondWaiting(hash: Digest, request: Request, way: Way): Put {
    Put(request, Queueing(Staged("b", hash("")), Naming("b")), true, Some(way))
  }

  /** A put answered with an operation that does not carry its file discards it. */
  lemma RedundantDiscarded(hash: Digest, s: State, staged: Staged) returns (next: State)
    requires Reaches(Moves(hash), NOTHING, s) && |s.puts| == 2 && s.puts[1].phase == Comparing(staged, 0)
    requires |s.operations| == 1 && s.operations[0].payload == Some(Naming("a")) && staged.id == "b"
    ensures Reaches(Moves(hash), NOTHING, next) && next.operations == s.operations
    ensures next.puts == s.puts[1 := s.puts[1].(phase := Ended(staged, Accepted(0)))]
    ensures next.files == s.files - {"b"}
  {
    assert !OwnsUpload(s, 0, "b") by { assert "b"[0] != "a"[0]; }
    var compared := Compared(s, 1);
    Take(hash, NOTHING, s, compared, 1);
    next := Discarded(compared, 1);
    Take(hash, NOTHING, compared, next, 1);
  }
}
