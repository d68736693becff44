/** The whole of a final run around publication: the proof-entry boundary, the generating and the verifying
    route, and the last join before the public return. */
module FinalRun {
  import opened Wrappers
  import opened Words
  import opened FileSystem
  import opened Publication

  ghost predicate Taken(s: Snapshot) {
    s.signature.length == |s.bytes| > 0
  }

  /** The callbacks other than replays succeed and leave the state as they found it. */
  ghost predicate Calm<C(!new)>(env: Environment<C>) {
    (forall h, fs :: env.conserve(h, fs) == (true, fs)) && (forall h, fs :: env.prove(h, fs) == (true, fs))
  }

  /** `proof_entry`. Proving starts only while the calibration is held and after a successful conserve. Once it
      has started, the calibration is re-checked and a conserve follows, even when proving failed. */
  method ProofEntry<C(!new)>(w: World<C>, calibration: Snapshot, ghost root: Directory)
    returns (r: Result<(), CustodyError>, ghost ev: seq<Event<C>>)
    requires Taken(calibration)
    requires w.Valid()
    modifies w
    ensures w.Valid()
    ensures w.trace == old(w.trace) + ev && Course(ev, root, old(w.fs), w.fs)
    ensures |ev| <= 3 && Labels(ev) == [LConserve, LProve, LConserve][..|ev|]
    ensures |ev| == 0 <==> !Held(old(w.fs), calibration)
    ensures |ev| > 0 ==> ev[0].before == old(w.fs)
    ensures |ev| == 3 <==> |ev| > 0 && ev[0].Conserved? && ev[0].ok
    ensures Calm(w.env) && Held(old(w.fs), calibration) ==> r.Ok? && w.fs == old(w.fs)
    ensures r.Ok?
            <==> |ev| == 3 && ev[1].Proved? && ev[1].ok && ev[2].Conserved? && ev[2].ok
                 && Held(ev[2].before, calibration)
  {
    ev := [];
    VerifiedIffHeld(w.fs, calibration);
    var held := VerifySnapshot(w.fs, calibration);
    if held.Err? {
      return held, ev;
    }
    var entered, first := w.Conserve();
    CourseCallback(first[0], root);
    ev := first;
    if !entered {
      return Err(ConserveFailed), ev;
    }
    ghost var mid := w.fs;
    var proved, second := w.Prove();
    CourseCallback(second[0], root);
    CourseAppend(first, second, root, old(w.fs), mid, w.fs);
    Joined(old(w.trace), first, second);
    mid := w.fs;
    VerifiedIffHeld(w.fs, calibration);
    var still := VerifySnapshot(w.fs, calibration);
    var conserved, third := w.Conserve();
    CourseCallback(third[0], root);
    CourseAppend(first + second, third, root, old(w.fs), mid, w.fs);
    Joined(old(w.trace), first + second, third);
    ev := first + second + third;
    r := if still.Err? then still
    else if !conserved then Err(ConserveFailed)
    else if proved then Ok(()) else Err(ProveFailed);
  }

  /** `finish_run`, with the origin check `run` hands to it. Both checks are evaluated whatever the result, and
      success means that the result was one, both checks passed, and the output is complete at return. */
  method FinishRun<C(!new)>(w: World<C>, result: Result<(), CustodyError>, root: Directory,
                            output: Option<OutputObservations>, calibration: Option<Snapshot>, l: Layout)
    returns (r: Result<(), CustodyError>, ghost ev: seq<Event<C>>)
    requires calibration.Some? ==> Taken(calibration.value)
    requires output.Some? ==> Observed(output.value.files, output.value.manifest, root, l)
    requires w.Valid()
    modifies w
    ensures w.Valid()
    ensures w.trace == old(w.trace) + ev && Course(ev, root, old(w.fs), w.fs)
    ensures |ev| == 1 && ev[0].Conserved? && ev[0].before == old(w.fs)
    ensures Calm(w.env) ==> w.fs == old(w.fs) && ev[0].ok
    ensures r.Ok? <==>
              && result.Ok? && ev[0].ok && (calibration.Some? ==> Held(w.fs, calibration.value))
              && output.Some? && Complete(w.fs, root, output.value.files, output.value.manifest, l)
  {
    var conserved, one := w.Conserve();
    CourseCallback(one[0], root);
    ev := one;
    if calibration.Some? { VerifiedIffHeld(w.fs, calibration.value); }
    var still := if calibration.Some? then VerifySnapshot(w.fs, calibration.value) else Ok(());
    if output.Some? { ObservationsVerifiedIff(w.fs, output.value.files, output.value.manifest, root, result.Ok?, l); }
    var observed := if output.Some?
    then VerifyObservations(w.fs, output.value.files, output.value.manifest, root, result.Ok?, l)
    else Ensure(result.Err?, ObservationsMissing);
    r := if !conserved then Err(ConserveFailed)
    else if still.Err? then still
    else if observed.Err? then observed else result;
  }

  /** What `run` does after either route has its result. */
  method CloseRun<C(!new)>(w: World<C>, result: Result<(), CustodyError>, root: Directory, first: OutputObservations,
                           calibration: Snapshot, l: Layout)
    returns (r: Result<(), CustodyError>, ghost ev: seq<Event<C>>)
    requires Taken(calibration) && Observed(first.files, first.manifest, root, l)
    requires w.Valid()
    modifies w
    ensures w.Valid()
    ensures w.trace == old(w.trace) + ev && Course(ev, root, old(w.fs), w.fs)
    ensures |ev| == (if DirVerified(old(w.fs), root) then 2 else 1)
    ensures forall i :: 0 <= i < |ev| ==> ev[i].Conserved?
    ensures Calm(w.env) && result.Ok? && Complete(old(w.fs), root, first.files, first.manifest, l)
            && Held(old(w.fs), calibration) ==>
              r.Ok?
    ensures Calm(w.env) ==> w.fs == old(w.fs)
    ensures r.Ok? <==>
              && result.Ok? && |ev| == 2 && ev[0].ok && ev[1].ok && Held(ev[1].before, calibration)
              && Held(w.fs, calibration) && Complete(w.fs, root, first.files, first.manifest, l)
  {
    ev := [];
    var joined := result;
    var rootHeld := VerifyDir(w.fs, root).Ok?;
    if rootHeld {
      var conserved, one := w.Conserve();
      CourseCallback(one[0], root);
      ev := one;
      joined := if conserved then result else Err(ConserveFailed);
    } else {
      joined := Err(DirectoryDrift);
    }
    ghost var mid := w.fs;
    VerifiedIffHeld(w.fs, calibration);
    var still := VerifySnapshot(w.fs, calibration);
    joined := if still.Err? then still else joined;
    ghost var last;
    r, last := FinishRun(w, joined, root, Some(first), Some(calibration), l);
    CourseAppend(ev, last, root, old(w.fs), mid, w.fs);
    Joined(old(w.trace), ev, last);
    ev := ev + last;
  }

  /** A run has entered proving properly and its first replay has succeeded on `payloads`: nothing is created
      before that. */
  ghost predicate Entry<C>(ev: seq<Event<C>>, calibration: Snapshot, payloads: seq<seq<uint8>>, expected: C) {
    && |ev| == 4
    && ev[0].Conserved? && ev[0].ok && ev[1].Proved? && ev[1].ok && ev[2].Conserved? && ev[2].ok
    && Held(ev[0].before, calibration) && Held(ev[2].before, calibration)
    && ev[3].Replayed? && ev[3].payloads == payloads && ev[3].result == Some(expected)
  }

  ghost predicate NoCreations<C>(ev: seq<Event<C>>) {
    forall i :: 0 <= i < |ev| ==> !ev[i].Created?
  }

  /** Proves, assembles the payloads and replays them. `assemble` stands for encoding the oracle and its
      evidence, which may fail. */
  method ProveAndReplay<C(!new)>(w: World<C>, calibration: Snapshot, assemble: seq<Event<C>> -> Option<seq<seq<uint8>>>,
                                 ghost root: Directory, ghost answer: C)
    returns (r: Result<(seq<seq<uint8>>, C), CustodyError>, ghost ev: seq<Event<C>>)
    requires Taken(calibration)
    requires w.Valid()
    modifies w
    ensures w.Valid()
    ensures w.trace == old(w.trace) + ev && Course(ev, root, old(w.fs), w.fs) && NoCreations(ev) && |ev| <= 4
    ensures r.Ok? ==> Entry(ev, calibration, r.value.0, r.value.1)
    ensures Benign(w.env, answer) && Held(old(w.fs), calibration) && (forall h :: assemble(h).Some?) ==>
              r.Ok? && r.value.1 == answer && w.fs == old(w.fs)
    ensures r.Ok? ==> assemble(old(w.trace) + ev[..3]) == Some(r.value.0)
  {
    var proved, a := ProofEntry(w, calibration, root);
    ev := a;
    LabelsMeanNoCreation(ev);
    if proved.Err? {
      return Err(proved.error), ev;
    }
    var assembled := assemble(w.trace);
    if assembled.None? {
      assert ev[..3] == ev;
      return Err(ProveFailed), ev;
    }
    ghost var mid := w.fs;
    var expected, b := w.Replay(assembled.value);
    CourseCallback(b[0], root);
    CourseAppend(a, b, root, old(w.fs), mid, w.fs);
    Joined(old(w.trace), a, b);
    ev := a + b;
    assert ev[..3] == a;
    return if expected.None? then Err(ReplayFailed) else Ok((assembled.value, expected.value)), ev;
  }

  /** Nothing will go wrong in a generating run: no callback or write fails, every replay answers `expected`, and
      whatever proof comes out yields suitable payloads. */
  ghost predicate Untroubled<C(!new)>(env: Environment<C>, assemble: seq<Event<C>> -> Option<seq<seq<uint8>>>,
                                      expected: C, l: Layout, codec: Codec<C>)
    requires |l.payloads| == |l.limits|
  {
    Benign(env, expected) && forall h :: assemble(h).Some? && Suitable(l, assemble(h).value, expected, codec)
  }

  lemma LabelsMeanNoCreation<C>(ev: seq<Event<C>>)
    requires |ev| <= 3 && Labels(ev) == [LConserve, LProve, LConserve][..|ev|]
    ensures NoCreations(ev)
  {
    assert forall i :: 0 <= i < |ev| ==> LabelOf(ev[i]) == Labels(ev)[i];
  }

  /** The generating route between admission and the run's close. Nothing is created unless proving was entered
      and left with the calibration held and the first replay succeeded. */
  method Generate<C(==,!new)>(w: World<C>, root: Directory, first: OutputObservations, calibration: Snapshot, l: Layout,
                              assemble: seq<Event<C>> -> Option<seq<seq<uint8>>>, codec: Codec<C>, ghost answer: C)
    returns (r: Result<(), CustodyError>, ghost ev: seq<Event<C>>, ghost payloads: seq<seq<uint8>>,
             ghost expected: Option<C>)
    requires WellFormedLayout(l) && Taken(calibration) && first.files == [] && first.manifest == None
    requires forall h :: assemble(h).Some? ==> |assemble(h).value| == |l.payloads|
    requires w.Valid()
    modifies w, first
    ensures w.Valid()
    ensures w.trace == old(w.trace) + ev && Course(ev, root, old(w.fs), w.fs)
    ensures Observed(first.files, first.manifest, root, l)
    ensures NoCreations(ev) || (|ev| > 4 && expected.Some? && Entry(ev[..4], calibration, payloads, expected.value))
    ensures |ev| < 4 ==> first.files == [] && first.manifest == None
    ensures expected.Some? ==> |ev| >= 4 && assemble(old(w.trace) + ev[..3]) == Some(payloads)
    ensures |ev| > 4 ==> expected.Some? && PublishRun(ev[4..], l) && ManifestLast(ev[4..], l, payloads, expected.value)
    ensures |ev| >= 4 ==> FromCreations(ev[4..], first.files, first.manifest, l)
    ensures r.Ok? ==>
              && expected.Some?
              && Flushed(w.env, old(w.trace) + ev[..4], ev[4..], l)
              && GeneratedRun(ev, calibration, l, payloads, expected.value, root, first.files, first.manifest, codec)
              && Complete(w.fs, root, first.files, first.manifest, l) && BytesOf(first.files) == payloads
    ensures Untroubled(w.env, assemble, answer, l, codec) && EmptyDirectory(old(w.fs), root)
            && Held(old(w.fs), calibration) ==>
              r.Ok? && Held(w.fs, calibration)
  {
    payloads, expected := [], None;
    var ready, a := ProveAndReplay(w, calibration, assemble, root, answer);
    ev := a;
    if ready.Err? {
      return Err(ready.error), ev, payloads, expected;
    }
    payloads, expected := ready.value.0, Some(ready.value.1);
    ghost var mid := w.fs;
    ghost var c;
    r, c := PublishRetained(w, root, first, l, ready.value.0, ready.value.1, codec);
    CourseAppend(a, c, root, old(w.fs), mid, w.fs);
    Joined(old(w.trace), a, c);
    ev := a + c;
    EntryThen(a, c);
    if Benign(w.env, answer) && Held(old(w.fs), calibration) {
      BenignRunKeeps(w.env, answer, old(w.trace), ev, root, old(w.fs), w.fs, calibration);
    }
  }

  lemma EntryThen<T>(a: seq<T>, c: seq<T>)
    requires |a| == 4
    ensures (a + c)[..3] == a[..3] && (a + c)[..4] == a && (a + c)[4..] == c
  {
  }

  /** A successful generation: entry, then publication, whose replays received the very payloads of the entry's
      replay and answered with the very checkpoint the manifest encodes. */
  ghost predicate GeneratedRun<C(!new)>(ev: seq<Event<C>>, calibration: Snapshot, l: Layout, payloads: seq<seq<uint8>>,
                                        expected: C, root: Directory, files: seq<Snapshot>, manifest: Option<Snapshot>,
                                        codec: Codec<C>) {
    && |ev| == |l.payloads| + 10
    && Entry(ev[..4], calibration, payloads, expected)
    && FullyPublished(ev[4..], l, payloads, expected, root, files, manifest, codec)
  }

  /** `run` for generation, from the fresh directory on. Success means that at return, after every callback, the
      directory holds exactly the payloads proved and replayed and the manifest of their checkpoint, each with
      the node and bytes of its creation, and that the calibration is the one proving was entered with. */
  method RunGenerate<C(==,!new)>(w: World<C>, root: Directory, calibration: Snapshot, l: Layout,
                                 assemble: seq<Event<C>> -> Option<seq<seq<uint8>>>, codec: Codec<C>, ghost answer: C)
    returns (r: Result<(), CustodyError>, first: OutputObservations, ghost ev: seq<Event<C>>,
             ghost closing: seq<Event<C>>, ghost payloads: seq<seq<uint8>>, ghost expected: Option<C>)
    requires WellFormedLayout(l) && Taken(calibration)
    requires forall h :: assemble(h).Some? ==> |assemble(h).value| == |l.payloads|
    requires w.Valid()
    modifies w
    ensures w.Valid()
    ensures w.trace == old(w.trace) + (ev + closing) && Course(ev + closing, root, old(w.fs), w.fs)
    ensures closing != [] && forall i :: 0 <= i < |closing| ==> closing[i].Conserved?
    ensures NoCreations(ev) || (|ev| > 4 && expected.Some? && Entry(ev[..4], calibration, payloads, expected.value))
    ensures expected.Some? ==> |ev| >= 4 && assemble(old(w.trace) + ev[..3]) == Some(payloads)
    ensures |ev| > 4 ==> expected.Some? && PublishRun(ev[4..], l) && ManifestLast(ev[4..], l, payloads, expected.value)
    ensures |ev| >= 4 ==> FromCreations(ev[4..], first.files, first.manifest, l)
    ensures r.Ok? ==>
              && expected.Some?
              && Flushed(w.env, old(w.trace) + ev[..4], ev[4..], l)
              && GeneratedRun(ev, calibration, l, payloads, expected.value, root, first.files, first.manifest, codec)
              && |closing| == 2 && closing[0].ok && closing[1].ok && Held(closing[1].before, calibration)
              && BytesOf(first.files) == payloads
              && Stands(w.fs, root, l, payloads, codec.encode(expected.value).value) && LeftAsCreated(ev, w.fs, root)
              && Complete(w.fs, root, first.files, first.manifest, l) && Held(w.fs, calibration)
    ensures Untroubled(w.env, assemble, answer, l, codec) && EmptyDirectory(old(w.fs), root)
            && Held(old(w.fs), calibration) ==>
              r.Ok?
  {
    first := new OutputObservations();
    var result;
    result, ev, payloads, expected := Generate(w, root, first, calibration, l, assemble, codec, answer);
    ghost var mid := w.fs;
    r, closing := CloseRun(w, result, root, first, calibration, l);
    CourseAppend(ev, closing, root, old(w.fs), mid, w.fs);
    Joined(old(w.trace), ev, closing);
    if r.Ok? {
      PublishedStands(ev[4..], l, payloads, expected.value, root, first.files, first.manifest, codec, w.fs);
      EntryCreatesNothing(ev, calibration, payloads, expected.value);
      LeftAfterEntry(ev, w.fs, root);
    }
  }

  lemma EntryCreatesNothing<C>(ev: seq<Event<C>>, calibration: Snapshot, payloads: seq<seq<uint8>>, expected: C)
    requires |ev| >= 4 && Entry(ev[..4], calibration, payloads, expected)
    ensures forall i :: 0 <= i < 4 ==> !ev[i].Created?
  {
    assert ev[0] == ev[..4][0] && ev[1] == ev[..4][1] && ev[2] == ev[..4][2] && ev[3] == ev[..4][3];
  }

  lemma LeftAfterEntry<C>(ev: seq<Event<C>>, fs: FsState, root: Directory)
    requires |ev| >= 4 && forall i :: 0 <= i < 4 ==> !ev[i].Created?
    requires LeftAsCreated(ev[4..], fs, root)
    ensures LeftAsCreated(ev, fs, root)
  {
    forall i | 4 <= i < |ev| && ev[i].Created? ensures LeftAs(ev[i], fs, root) {
      assert ev[i] == ev[4..][i - 4];
    }
  }

  /** `run` for verification: it creates nothing, and success means that the directory at return is complete and the
      very one found at entry, and that the replay received exactly the bytes it holds and answered with the
      checkpoint of its manifest. */
  method RunVerify<C(==,!new)>(w: World<C>, root: Directory, calibration: Snapshot, l: Layout, codec: Codec<C>)
    returns (r: Result<(), CustodyError>, first: OutputObservations, ghost ev: seq<Event<C>>)
    requires WellFormedLayout(l) && Taken(calibration)
    requires w.Valid()
    modifies w
    ensures w.Valid()
    ensures w.trace == old(w.trace) + ev && Course(ev, root, old(w.fs), w.fs) && NoCreations(ev)
    ensures ev != [] && ev[|ev| - 1].Conserved?
    ensures r.Ok? ==> VerifiedRun(ev, calibration, root, first.files, first.manifest, l, codec, old(w.fs), w.fs)
    ensures Settled(w.env, old(w.fs), root, l, codec) && Held(old(w.fs), calibration) ==> r.Ok?
  {
    first := new OutputObservations();
    SettledIsCalm(w.env, w.fs, root, l, codec);
    ghost var a, inner;
    var result;
    result, a, inner := VerifyPublishedRetained(w, root, first, l, codec, None);
    ghost var mid := w.fs;
    ghost var b;
    r, b := CloseRun(w, result, root, first, calibration, l);
    CourseAppend(a, b, root, old(w.fs), mid, w.fs);
    Joined(old(w.trace), a, b);
    ev := a + b;
    RereadCreatesNothing(a, b, inner);
    if r.Ok? { VerifiedRunIs(a, b, calibration, root, first.files, first.manifest, l, codec, old(w.fs), w.fs); }
  }

  /** A successful verifying run from one state to another: what it did, what was held whenever it looked, and the
      directory itself in both states. */
  ghost predicate VerifiedRun<C>(ev: seq<Event<C>>, calibration: Snapshot, root: Directory, files: seq<Snapshot>,
                                 manifest: Option<Snapshot>, l: Layout, codec: Codec<C>, from: FsState, to: FsState) {
    && Labels(ev) == [LReplay, LConserve, LConserve, LConserve]
    && ev[0].before == from && Reread(ev[..2], files, manifest, codec)
    && ev[2].Conserved? && ev[2].ok && ev[3].Conserved? && ev[3].ok
    && Complete(from, root, files, manifest, l) && Complete(ev[1].before, root, files, manifest, l)
    && Complete(to, root, files, manifest, l) && Held(ev[3].before, calibration) && Held(to, calibration)
    && Stands(from, root, l, BytesOf(files), manifest.value.bytes)
    && Stands(to, root, l, BytesOf(files), manifest.value.bytes)
  }

  lemma VerifiedRunIs<C>(a: seq<Event<C>>, b: seq<Event<C>>, calibration: Snapshot, root: Directory,
                         files: seq<Snapshot>, manifest: Option<Snapshot>, l: Layout, codec: Codec<C>, from: FsState,
                         to: FsState)
    requires Reread(a, files, manifest, codec) && a[0].before == from && OwnNodes(files, manifest.value)
    requires |b| == 2 && b[0].Conserved? && b[0].ok && b[1].Conserved? && b[1].ok && Held(b[1].before, calibration)
    requires Complete(from, root, files, manifest, l) && Complete(a[1].before, root, files, manifest, l)
    requires Complete(to, root, files, manifest, l) && Held(to, calibration)
    ensures VerifiedRun(a + b, calibration, root, files, manifest, l, codec, from, to)
  {
    RereadThenConserves(a, b, files, manifest, codec);
    CompleteStands(from, root, files, manifest, l);
    CompleteStands(to, root, files, manifest, l);
  }

  lemma SettledIsCalm<C(!new)>(env: Environment<C>, fs: FsState, root: Directory, l: Layout, codec: Codec<C>)
    requires |l.payloads| == |l.limits|
    ensures Settled(env, fs, root, l, codec) ==> Calm(env)
  {
  }

  lemma RereadCreatesNothing<C>(a: seq<Event<C>>, b: seq<Event<C>>, inner: bool)
    requires RereadShape(a, inner) && b != [] && forall i :: 0 <= i < |b| ==> b[i].Conserved?
    ensures NoCreations(a + b) && (a + b)[|a + b| - 1].Conserved?
  {
  }

  lemma RereadThenConserves<C>(a: seq<Event<C>>, b: seq<Event<C>>, files: seq<Snapshot>, manifest: Option<Snapshot>,
                               codec: Codec<C>)
    requires Reread(a, files, manifest, codec) && |b| == 2 && b[0].Conserved? && b[1].Conserved?
    ensures |a + b| == 4 && (a + b)[..2] == a && (a + b)[2] == b[0] && (a + b)[3] == b[1]
    ensures Labels(a + b) == [LReplay, LConserve, LConserve, LConserve]
  {
    assert a + b == [a[0], a[1], b[0], b[1]];
  }
}
