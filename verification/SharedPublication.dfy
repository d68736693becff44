/** The earlier sibling protocol, whose last operation is a callback that no check follows. */
module SharedPublication {
  import opened Wrappers
  import opened Words
  import opened FileSystem
  import opened Publication

  const SHARED_LAYOUT := Layout(
    ["shared-assumption.receipt-oracle.bincode", "shared-assumption.raw-seal.bin",
     "alternate-chain-domain-statement.bin"],
    [1_048_576, 222_668, 16_543], "shared-assumption-checkpoint.json", 16_384)

  lemma SharedLayoutIsWellFormed()
    ensures WellFormedLayout(SHARED_LAYOUT)
  {
    var p := SHARED_LAYOUT.payloads;
    assert |p[0]| != |p[1]| && p[0][0] != p[2][0] && p[1][0] != p[2][0];
    assert |SHARED_LAYOUT.manifest| != |p[0]| && |SHARED_LAYOUT.manifest| != |p[1]|
           && SHARED_LAYOUT.manifest[0] != p[2][0];
  }

  /** The reads so far, in the loop that makes them. */
  ghost predicate ReadSoFar(fs: FsState, root: Directory, l: Layout, files: seq<Snapshot>)
    requires |l.payloads| == |l.limits|
  {
    && |files| <= |l.payloads| && Reads(fs, root, l, |files|) == Ok(files)
    && Observed(files, None, root, l) && AllHeld(fs, files)
  }

  lemma ReadNext(fs: FsState, root: Directory, l: Layout, files: seq<Snapshot>)
    requires WellFormedLayout(l) && ReadSoFar(fs, root, l, files) && |files| < |l.payloads|
    ensures var file := ReadAt(fs, root, l.payloads[|files|], l.limits[|files|]);
            && (file.Ok? ==> ReadSoFar(fs, root, l, files + [file.value]))
            && (file.Err? ==> Reads(fs, root, l, |l.payloads|).Err?)
  {
    var n := |files|;
    if Reads(fs, root, l, |l.payloads|).Ok? { ReadsPrefix(fs, root, l, n + 1, |l.payloads|); }
    if ReadAt(fs, root, l.payloads[n], l.limits[n]).Ok? { ReadIsHeld(fs, root, l.payloads[n], l.limits[n]); }
  }

  /** `payload_snapshots`: fresh reads of the payloads by name. */
  method PayloadSnapshots(fs: FsState, root: Directory, l: Layout) returns (r: Result<seq<Snapshot>, CustodyError>)
    requires WellFormedLayout(l)
    ensures r.Ok? ==> |r.value| == |l.payloads| && Observed(r.value, None, root, l) && AllHeld(fs, r.value)
    ensures r.Ok? ==> Reads(fs, root, l, |l.payloads|) == r
    ensures r.Err? ==> Reads(fs, root, l, |l.payloads|).Err?
  {
    var files: seq<Snapshot> := [];
    for i := 0 to |l.payloads|
      invariant |files| == i && ReadSoFar(fs, root, l, files)
    {
      ReadNext(fs, root, l, files);
      var file :- ReadAt(fs, root, l.payloads[i], l.limits[i]);
      files := files + [file];
    }
    return Ok(files);
  }

  /** Creates the payloads and forgets what the creations observed; `made` keeps it for the proof. */
  method WriteAll<C(!new)>(w: World<C>, root: Directory, l: Layout, payloads: seq<seq<uint8>>)
    returns (r: Result<(), CustodyError>, ghost ev: seq<Event<C>>, ghost made: seq<Snapshot>)
    requires WellFormedLayout(l) && |payloads| == |l.payloads| && EmptyDirectory(w.fs, root)
    requires w.Valid()
    modifies w
    ensures w.Valid()
    ensures w.trace == old(w.trace) + ev && Course(ev, root, old(w.fs), w.fs) && InitialPart(ev, l)
    ensures |ev| <= |l.payloads| && Observed(made, None, root, l) && FromCreations(ev, made, None, l)
    ensures r.Ok? ==> |ev| == |l.payloads| && BytesOf(made) == payloads && JustCreated(w.fs, root, made)
    ensures Reliable(w.env) && NoneEmpty(payloads) ==> r.Ok?
  {
    var scratch := new OutputObservations();
    r, ev := WritePayloads(w, root, scratch, l, payloads);
    made := scratch.files;
  }

  /** The replay was given exactly what was read, answered with the manifest's checkpoint, and left what was
      read, and the snapshots kept, as they were. */
  ghost predicate Agreed<C>(e: Event<C>, root: Directory, seen: seq<Snapshot>, manifest: Option<Snapshot>, l: Layout,
                            codec: Codec<C>, kept: seq<Snapshot>) {
    && e.Replayed? && e.payloads == BytesOf(seen)
    && manifest.Some? && e.result.Some? && e.result == codec.Decode(manifest.value.bytes)
    && Complete(e.after, root, seen, manifest, l) && AllHeld(e.after, kept)
  }

  /** `verify_published` with the checks that `publish` puts before the callback. */
  method VerifyUntilConserve<C(==,!new)>(w: World<C>, root: Directory, l: Layout, codec: Codec<C>, kept: seq<Snapshot>)
    returns (r: Result<(), CustodyError>, ghost ev: seq<Event<C>>, ghost seen: seq<Snapshot>,
             ghost manifest: Option<Snapshot>)
    requires WellFormedLayout(l) && Observed(kept, None, root, l)
    requires w.Valid()
    modifies w
    ensures w.Valid()
    ensures w.trace == old(w.trace) + ev && Course(ev, root, old(w.fs), w.fs) && |ev| <= 1
    ensures ev != [] <==> Publishable(old(w.fs), root, l, codec)
    ensures ev != [] ==>
              && Complete(old(w.fs), root, seen, manifest, l) && ev[0].Replayed? && ev[0].payloads == BytesOf(seen)
              && ev[0].before == old(w.fs) && ev[0].after == w.fs
              && (ev[0].result, ev[0].after) == w.env.replay(old(w.trace), BytesOf(seen), old(w.fs))
    ensures r.Ok? <==> ev != [] && Agreed(ev[0], root, seen, manifest, l, codec, kept)
  {
    var read := new OutputObservations();
    r, ev := VerifyBody(w, root, read, l, codec);
    seen, manifest := read.files, read.manifest;
    if r.Ok? {
      VerifyAllIffHeld(w.fs, kept);
      r := VerifyAll(w.fs, kept);
    }
    var rootHeld := VerifyDir(w.fs, root).Ok?;
    r := if r.Ok? && !rootHeld then Err(DirectoryDrift) else r;
  }

  /** A re-read from the state `from`: it happens exactly when the directory is publishable, its replay is given
      what was read, and a conserve follows exactly when the replay agrees. */
  ghost predicate Rereading<C>(c: seq<Event<C>>, from: FsState, to: FsState, root: Directory, seen: seq<Snapshot>,
                               manifest: Option<Snapshot>, l: Layout, codec: Codec<C>, kept: seq<Snapshot>)
    requires |l.payloads| == |l.limits|
  {
    && |c| <= 2 && (c != [] <==> Publishable(from, root, l, codec))
    && (c != [] ==>
          && Complete(from, root, seen, manifest, l) && c[0].Replayed? && c[0].payloads == BytesOf(seen)
          && c[0].before == from && c[|c| - 1].after == to)
    && (|c| == 2 <==> c != [] && Agreed(c[0], root, seen, manifest, l, codec, kept))
    && (|c| == 2 ==> c[1].Conserved? && c[1].before == c[0].after)
  }

  /** `verify_published`, with the conserve of `publish`: a check of the payload snapshots `kept`, then the
      callback. Everything holds when the last callback is entered, and nothing is checked after it. */
  method VerifyPublished<C(==,!new)>(w: World<C>, root: Directory, l: Layout, codec: Codec<C>, kept: seq<Snapshot>)
    returns (r: Result<(), CustodyError>, ghost ev: seq<Event<C>>, ghost seen: seq<Snapshot>,
             ghost manifest: Option<Snapshot>)
    requires WellFormedLayout(l) && Observed(kept, None, root, l)
    requires w.Valid()
    modifies w
    ensures w.Valid()
    ensures w.trace == old(w.trace) + ev && Course(ev, root, old(w.fs), w.fs)
    ensures Rereading(ev, old(w.fs), w.fs, root, seen, manifest, l, codec, kept)
    ensures r.Ok? <==> |ev| == 2 && ev[1].Conserved? && ev[1].ok
  {
    r, ev, seen, manifest := VerifyUntilConserve(w, root, l, codec, kept);
    if r.Ok? {
      ghost var mid := w.fs;
      var ok, last := w.Conserve();
      CourseCallback(last[0], root);
      CourseAppend(ev, last, root, old(w.fs), mid, w.fs);
      assert ev == [ev[0]];
      Joined(old(w.trace), ev, last);
      ev := ev + last;
      r := Ensure(ok, ConserveFailed);
    }
  }

  /** `publish`: success guarantees the exact inventory, each file the one the run created, with the supplied bytes,
      at entry to the last callback; the state at return is whatever that callback left. */
  method Publish<C(==,!new)>(w: World<C>, root: Directory, l: Layout, payloads: seq<seq<uint8>>, expected: C,
                             codec: Codec<C>)
    returns (r: Result<(), CustodyError>, ghost ev: seq<Event<C>>, ghost seen: seq<Snapshot>,
             ghost manifest: Option<Snapshot>)
    requires WellFormedLayout(l) && |payloads| == |l.payloads|
    requires w.Valid()
    modifies w
    ensures w.Valid()
    ensures w.trace == old(w.trace) + ev && Course(ev, root, old(w.fs), w.fs)
    ensures SharedOrder(ev, l) && ManifestLast(ev, l, payloads, expected) && BeganEmpty(ev, old(w.fs), root)
    ensures r.Ok? ==> SharedRun(ev, l, payloads, expected, root, seen, manifest, codec, w.fs)
    ensures r.Ok? ==>
              && Stands(ev[|l.payloads| + 4].before, root, l, payloads, codec.encode(expected).value)
              && LeftAsCreated(ev, ev[|l.payloads| + 4].before, root)
    ensures r.Ok? ==> Flushed(w.env, old(w.trace), ev, l)
    ensures r.Ok? <==> |ev| == |l.payloads| + 5 && ev[|l.payloads| + 4].Conserved? && ev[|l.payloads| + 4].ok
    ensures BenignUntil(w.env, expected, |old(w.trace)| + |l.payloads| + 2) && EmptyDirectory(old(w.fs), root)
            && Suitable(l, payloads, expected, codec) ==>
              ReachedReread(ev, l, payloads, expected, root, seen, manifest, codec, w.fs)
  {
    ev, seen, manifest := [], [], None;
    var ready, a, made := PublishUntilManifest(w, root, l, payloads, expected, codec);
    ev := a;
    if ready.Err? {
      return Err(ready.error), ev, seen, manifest;
    }
    ghost var mid := w.fs;
    ghost var c;
    r, c, seen, manifest := VerifyPublished(w, root, l, codec, ready.value);
    CourseAppend(a, c, root, old(w.fs), mid, w.fs);
    ev := a + c;
    Joined(old(w.trace), a, c);
    assert a[..|l.payloads| + 3] == a;
    FlushedExtends(w.env, old(w.trace), a, c, l);
    SharedOrderExtends(a, c, l, payloads, expected);
    if JustCreated(mid, root, ready.value + [made]) && Suitable(l, payloads, expected, codec) {
      RereadReached(a, c, l, payloads, expected, root, seen, manifest, codec, ready.value, made, mid, w.fs);
    }
    if r.Ok? {
      SharedSuccess(a, c, l, payloads, expected, root, seen, manifest, codec, ready.value, made, mid, w.fs);
      SharedStands(ev, l, payloads, expected, root, seen, manifest, codec, w.fs);
    }
  }

  lemma SharedStands<C(!new)>(ev: seq<Event<C>>, l: Layout, payloads: seq<seq<uint8>>, expected: C, root: Directory,
                              seen: seq<Snapshot>, manifest: Option<Snapshot>, codec: Codec<C>, end: FsState)
    requires WellFormedLayout(l)
    requires SharedRun(ev, l, payloads, expected, root, seen, manifest, codec, end)
    ensures Stands(ev[|l.payloads| + 4].before, root, l, payloads, codec.encode(expected).value)
    ensures LeftAsCreated(ev, ev[|l.payloads| + 4].before, root)
  {
    PublishableNodes(ev[|l.payloads| + 4].before, root, seen, manifest, l, codec);
    CompleteStands(ev[|l.payloads| + 4].before, root, seen, manifest, l);
    CreatedAreLeft(ev, [LConserve], seen, manifest, ev[|l.payloads| + 4].before, root, l);
  }

  /** The order of any run of `publish`: an initial part of the protocol, and after the whole of it perhaps one more
      conserve. */
  ghost predicate SharedOrder<C>(ev: seq<Event<C>>, l: Layout) {
    if |ev| <= |l.payloads| + 4 then InitialPart(ev, l)
    else |ev| == |l.payloads| + 5 && InitialPart(ev[..|ev| - 1], l) && ev[|ev| - 1].Conserved?
  }

  lemma SharedOrderExtends<C>(a: seq<Event<C>>, c: seq<Event<C>>, l: Layout, payloads: seq<seq<uint8>>, expected: C)
    requires |a| == |l.payloads| + 3 && InitialPart(a, l) && ManifestLast(a, l, payloads, expected)
    requires |c| <= 2 && (c != [] ==> c[0].Replayed?) && (|c| == 2 ==> c[1].Conserved?)
    ensures SharedOrder(a + c, l) && ManifestLast(a + c, l, payloads, expected)
  {
    ManifestLastExtends(a, c, l, payloads, expected);
    if c == [] {
      assert a + c == a;
    } else {
      PartExtends(a, c[0], l);
      assert (a + c)[..|a| + 1] == a + [c[0]];
      if |c| == 1 { assert a + c == a + [c[0]]; }
    }
  }

  lemma SnapshotsAgree(fs: FsState, root: Directory, a: seq<Snapshot>, b: seq<Snapshot>, l: Layout)
    requires AllHeld(fs, a) && AllHeld(fs, b) && Observed(b, None, root, l)
    requires |a| == |b| == |l.payloads| && forall i :: 0 <= i < |a| ==> Observes(a[i], root, l.payloads[i])
    ensures a == b
  {
    forall i | 0 <= i < |a| ensures a[i] == b[i] {
      HeldTogether(fs, a[i], b[i]);
    }
  }

  /** What a successful run of `publish` has done, up to the state its last callback left: the trace, what both
      replays received and answered, and the files held when the last callback was entered. */
  ghost predicate SharedRun<C(!new)>(ev: seq<Event<C>>, l: Layout, payloads: seq<seq<uint8>>, expected: C,
                                     root: Directory, seen: seq<Snapshot>, manifest: Option<Snapshot>, codec: Codec<C>,
                                     end: FsState) {
    var n := |l.payloads|;
    && |ev| == n + 5 && Labels(ev) == Protocol(l) + [LConserve]
    && ev[n].Replayed? && ev[n].payloads == payloads && ev[n].result == Some(expected) && AllHeld(ev[n].after, seen)
    && ev[n + 1].Conserved? && ev[n + 1].ok
    && ev[n + 3].Replayed? && ev[n + 3].payloads == payloads && ev[n + 3].result.Some?
    && ev[n + 4].Conserved? && ev[n + 4].ok && ev[n + 4].after == end
    && Complete(ev[n + 3].before, root, seen, manifest, l) && Complete(ev[n + 4].before, root, seen, manifest, l)
    && |l.payloads| == |l.limits| && Publishable(ev[n + 4].before, root, l, codec)
    && BytesOf(seen) == payloads && FromCreations(ev, seen, manifest, l)
    && Some(manifest.value.bytes) == codec.encode(expected) && ev[n + 3].result == codec.Decode(manifest.value.bytes)
    && (Injective(codec) ==> ev[n + 3].result == Some(expected))
  }

  /** The second replay was reached with everything created still there, and one more conserve follows it exactly
      when it agrees and leaves everything as it is. */
  ghost predicate ReachedReread<C>(ev: seq<Event<C>>, l: Layout, payloads: seq<seq<uint8>>, expected: C,
                                   root: Directory, seen: seq<Snapshot>, manifest: Option<Snapshot>, codec: Codec<C>,
                                   end: FsState) {
    var n := |l.payloads|;
    && n + 4 <= |ev| <= n + 5 && InitialPart(ev[..n + 4], l) && ev[n + 3].Replayed?
    && BytesOf(seen) == payloads && FromCreations(ev, seen, manifest, l)
    && Complete(ev[n + 3].before, root, seen, manifest, l) && Some(manifest.value.bytes) == codec.encode(expected)
    && (|ev| == n + 5 <==> ev[n + 3].result == Some(expected) && Complete(ev[n + 3].after, root, seen, manifest, l))
    && (|ev| == n + 5 ==> ev[n + 4].Conserved? && ev[n + 4].before == ev[n + 3].after && ev[n + 4].after == end)
  }

  /** `publish` is ready for the re-read: everything is created and replayed, `kept` and `made` are what the
      creations observed, and the manifest is held. */
  ghost predicate ReadyToReread<C>(a: seq<Event<C>>, kept: seq<Snapshot>, made: Snapshot, fs: FsState, root: Directory,
                                   l: Layout, payloads: seq<seq<uint8>>, expected: C, codec: Codec<C>) {
    && |payloads| == |kept| == |l.payloads| && |a| == |l.payloads| + 3 && InitialPart(a, l)
    && PayloadsReplayed(a[..|l.payloads| + 1], l, payloads, expected)
    && Observed(kept, None, root, l) && BytesOf(kept) == payloads
    && AllHeld(a[|l.payloads|].after, kept) && a[|l.payloads| + 1].Conserved? && a[|l.payloads| + 1].ok
    && Observes(made, root, l.manifest) && Held(fs, made) && Some(made.bytes) == codec.encode(expected)
    && FromCreations(a, kept, Some(made), l)
  }

  lemma SharedSuccess<C(!new)>(a: seq<Event<C>>, c: seq<Event<C>>, l: Layout, payloads: seq<seq<uint8>>, expected: C,
                               root: Directory, seen: seq<Snapshot>, manifest: Option<Snapshot>, codec: Codec<C>,
                               kept: seq<Snapshot>, made: Snapshot, mid: FsState, end: FsState)
    requires WellFormedLayout(l) && ReadyToReread(a, kept, made, mid, root, l, payloads, expected, codec)
    requires Rereading(c, mid, end, root, seen, manifest, l, codec, kept) && |c| == 2 && c[1].Conserved? && c[1].ok
    ensures SharedRun(a + c, l, payloads, expected, root, seen, manifest, codec, end)
  {
    HeldTogether(mid, made, manifest.value);
    SnapshotsAgree(c[0].after, root, seen, kept, l);
    assert seen == kept && manifest == Some(made);
    FromCreationsExtend(a, c, kept, Some(made), l);
    SharedLabels(a, c, l);
    PublishableAgain(mid, c[0].after, root, seen, made, l, codec);
    var n := |l.payloads|;
    assert (a + c)[n] == a[..n + 1][n] == a[n] && (a + c)[n + 1] == a[n + 1];
    assert (a + c)[n + 3] == c[0] && (a + c)[n + 4] == c[1];
    if Injective(codec) { assert codec.encode(c[0].result.value) == Some(made.bytes); }
  }

  lemma SharedLabels<C>(a: seq<Event<C>>, c: seq<Event<C>>, l: Layout)
    requires |a| == |l.payloads| + 3 && InitialPart(a, l)
    requires |c| == 2 && c[0].Replayed? && c[1].Conserved?
    ensures Labels(a + c) == Protocol(l) + [LConserve]
  {
    PartExtends(a, c[0], l);
    assert a + c == a + [c[0]] + [c[1]];
  }

  lemma RereadSeesCreated<C>(c: seq<Event<C>>, a: seq<Event<C>>, l: Layout, payloads: seq<seq<uint8>>, expected: C,
                             root: Directory, seen: seq<Snapshot>, manifest: Option<Snapshot>, codec: Codec<C>,
                             kept: seq<Snapshot>, made: Snapshot, mid: FsState, end: FsState)
    requires WellFormedLayout(l) && ReadyToReread(a, kept, made, mid, root, l, payloads, expected, codec)
    requires Rereading(c, mid, end, root, seen, manifest, l, codec, kept)
    requires Suitable(l, payloads, expected, codec) && JustCreated(mid, root, kept + [made])
    ensures c != [] && c[0].before == mid && Complete(mid, root, kept, Some(made), l) && seen == kept
            && manifest == Some(made)
  {
    CreatedIsComplete(mid, root, kept, made, l);
    CompleteIsPublishable(mid, root, kept, made, l, payloads, expected, codec);
    CompleteTogether(mid, root, seen, manifest, kept, Some(made), l);
  }

  lemma RereadReached<C>(a: seq<Event<C>>, c: seq<Event<C>>, l: Layout, payloads: seq<seq<uint8>>, expected: C,
                         root: Directory, seen: seq<Snapshot>, manifest: Option<Snapshot>, codec: Codec<C>,
                         kept: seq<Snapshot>, made: Snapshot, mid: FsState, end: FsState)
    requires WellFormedLayout(l) && ReadyToReread(a, kept, made, mid, root, l, payloads, expected, codec)
    requires Rereading(c, mid, end, root, seen, manifest, l, codec, kept)
    requires Suitable(l, payloads, expected, codec) && JustCreated(mid, root, kept + [made])
    ensures ReachedReread(a + c, l, payloads, expected, root, seen, manifest, codec, end)
  {
    RereadSeesCreated(c, a, l, payloads, expected, root, seen, manifest, codec, kept, made, mid, end);
    FromCreationsExtend(a, c, kept, Some(made), l);
    PartExtends(a, c[0], l);
    assert (a + c)[..|a| + 1] == a + [c[0]] && (a + c)[|a|] == c[0];
    if |c| == 2 { assert (a + c)[|a| + 1] == c[1]; }
  }

  lemma ManifestFollows<C>(a: seq<Event<C>>, b: seq<Event<C>>, kept: seq<Snapshot>, root: Directory, l: Layout,
                           payloads: seq<seq<uint8>>, expected: C, from: FsState)
    requires KeptRun(a, kept, root, l, payloads, expected) && BeganEmpty(a, from, root)
    requires |b| <= 2 && (|b| == 2 ==> b[0].Conserved? && b[0].ok)
    ensures ManifestLast(a + b, l, payloads, expected) && BeganEmpty(a + b, from, root)
  {
    assert (a + b)[0] == a[0] && (a + b)[|a| - 1] == a[|a| - 1];
    if b != [] { assert (a + b)[|a|] == b[0]; }
  }

  lemma ReadyAfterManifest<C>(a: seq<Event<C>>, b: seq<Event<C>>, kept: seq<Snapshot>, made: Snapshot, fs: FsState,
                              root: Directory, l: Layout, payloads: seq<seq<uint8>>, expected: C, codec: Codec<C>)
    requires |payloads| == |l.payloads| && |b| == 2 && InitialPart(a + b, l) && b[0].Conserved? && b[0].ok
    requires KeptRun(a, kept, root, l, payloads, expected)
    requires Observes(made, root, l.manifest) && Held(fs, made) && CreationOf(b[1], made)
    requires Some(made.bytes) == codec.encode(expected)
    ensures ReadyToReread(a + b, kept, made, fs, root, l, payloads, expected, codec)
  {
    FromCreationsExtend(a, b, kept, None, l);
    assert (a + b)[..|a|] == a && (a + b)[|a| - 1] == a[|a| - 1] && (a + b)[|a|] == b[0] && (a + b)[|a| + 1] == b[1];
    assert |kept| == |BytesOf(kept)|;
  }

  lemma BenignSooner<C(!new)>(env: Environment<C>, expected: C, horizon: nat)
    ensures BenignUntil(env, expected, horizon) ==> forall h: nat :: h <= horizon ==> BenignUntil(env, expected, h)
  {
  }

  /** The part of `publish` before it re-reads: `ready` holds the payload snapshots it keeps. */
  method PublishUntilManifest<C(==,!new)>(w: World<C>, root: Directory, l: Layout, payloads: seq<seq<uint8>>,
                                          expected: C, codec: Codec<C>)
    returns (ready: Result<seq<Snapshot>, CustodyError>, ghost ev: seq<Event<C>>, ghost made: Snapshot)
    requires WellFormedLayout(l) && |payloads| == |l.payloads|
    requires w.Valid()
    modifies w
    ensures w.Valid()
    ensures w.trace == old(w.trace) + ev && Course(ev, root, old(w.fs), w.fs) && |ev| <= |l.payloads| + 3
    ensures InitialPart(ev, l) && ManifestLast(ev, l, payloads, expected) && BeganEmpty(ev, old(w.fs), root)
    ensures ready.Ok? ==> ReadyToReread(ev, ready.value, made, w.fs, root, l, payloads, expected, codec)
    ensures ready.Ok? ==> w.env.fault(w.trace) == NoFault
    ensures BenignUntil(w.env, expected, |old(w.trace)| + |l.payloads| + 2) && EmptyDirectory(old(w.fs), root)
            && Suitable(l, payloads, expected, codec) ==>
              ready.Ok? && JustCreated(w.fs, root, ready.value + [made])
  {
    made := Snapshot(root, l.manifest, 0, Signature(0, 0), []);
    BenignSooner(w.env, expected, |w.trace| + |l.payloads| + 2);
    var kept, a := PublishKept(w, root, l, payloads, expected);
    ev := a;
    if kept.Err? {
      return kept, ev, made;
    }
    ghost var b;
    var added;
    added, b, made := AddManifest(w, root, l, payloads, expected, codec, kept.value, a, old(w.fs));
    Joined(old(w.trace), a, b);
    ev := a + b;
    return if added.Err? then Err(added.error) else kept, ev, made;
  }

  /** Conserve and the manifest, after the run `a` that began in `from` and observed `kept`. */
  method AddManifest<C(!new)>(w: World<C>, root: Directory, l: Layout, ghost payloads: seq<seq<uint8>>, expected: C,
                              codec: Codec<C>, ghost kept: seq<Snapshot>, ghost a: seq<Event<C>>, ghost from: FsState)
    returns (r: Result<(), CustodyError>, ghost b: seq<Event<C>>, ghost made: Snapshot)
    requires WellFormedLayout(l) && |payloads| == |l.payloads| && KeptRun(a, kept, root, l, payloads, expected)
    requires Course(a, root, from, w.fs) && BeganEmpty(a, from, root)
    requires w.Valid()
    modifies w
    ensures w.Valid()
    ensures w.trace == old(w.trace) + b && Course(a + b, root, from, w.fs) && |a + b| <= |l.payloads| + 3
    ensures InitialPart(a + b, l) && ManifestLast(a + b, l, payloads, expected) && BeganEmpty(a + b, from, root)
    ensures r.Ok? ==> ReadyToReread(a + b, kept, made, w.fs, root, l, payloads, expected, codec)
    ensures r.Ok? ==> w.env.fault(w.trace) == NoFault
    ensures BenignUntil(w.env, expected, |old(w.trace)| + 1) && PayloadsCreated(old(w.fs), root, kept, l)
            && Suitable(l, payloads, expected, codec) ==>
              r.Ok? && JustCreated(w.fs, root, kept + [made])
  {
    made := Snapshot(root, l.manifest, 0, Signature(0, 0), []);
    ghost var mid := w.fs;
    var manifest, synced;
    manifest, synced, b := ConserveThenCreate(w, root, l, expected, codec, a, kept);
    CourseAppend(a, b, root, from, mid, w.fs);
    ManifestFollows(a, b, kept, root, l, payloads, expected, from);
    if manifest.Err? {
      return Err(manifest.error), b, made;
    }
    made := manifest.value;
    if synced.Err? {
      return synced, b, made;
    }
    ReadyAfterManifest(a, b, kept, made, w.fs, root, l, payloads, expected, codec);
    return Ok(()), b, made;
  }

  /** Creates the payloads in an empty directory and reads them back: what is read is what the creations observed. */
  method CreateAndRead<C(!new)>(w: World<C>, root: Directory, l: Layout, payloads: seq<seq<uint8>>)
    returns (ready: Result<seq<Snapshot>, CustodyError>, ghost ev: seq<Event<C>>)
    requires WellFormedLayout(l) && |payloads| == |l.payloads| && EmptyDirectory(w.fs, root)
    requires w.Valid()
    modifies w
    ensures w.Valid()
    ensures w.trace == old(w.trace) + ev && Course(ev, root, old(w.fs), w.fs) && InitialPart(ev, l)
    ensures |ev| <= |l.payloads|
    ensures ready.Ok? ==>
              && |ev| == |l.payloads| && BytesOf(ready.value) == payloads && PayloadsCreated(w.fs, root, ready.value, l)
              && FromCreations(ev, ready.value, None, l)
    ensures Reliable(w.env) && Within(payloads, l) ==> ready.Ok?
  {
    var written, a, made := WriteAll(w, root, l, payloads);
    ev := a;
    if written.Err? {
      return Err(written.error), ev;
    }
    AllPayloadNames(w.fs, root, made, l);
    var named := RequireNames(w.fs, root, l.payloads);
    match named {
      case Ok(_) =>
      case Err(error) => return Err(error), ev;
    }
    if Within(payloads, l) { CreatedReads(w.fs, root, made, l, payloads); }
    ready := PayloadSnapshots(w.fs, root, l);
    if ready.Ok? { SnapshotsAgree(w.fs, root, ready.value, made, l); }
  }

  /** The payloads are created, read back and replayed; `kept` is what was read, which is what was created. */
  ghost predicate KeptRun<C>(ev: seq<Event<C>>, kept: seq<Snapshot>, root: Directory, l: Layout,
                             payloads: seq<seq<uint8>>, expected: C) {
    && |ev| == |l.payloads| + 1 && PayloadsReplayed(ev, l, payloads, expected)
    && Observed(kept, None, root, l) && BytesOf(kept) == payloads && FromCreations(ev, kept, None, l)
    && AllHeld(ev[|l.payloads|].after, kept)
  }

  lemma KeptRunCloses<C>(a: seq<Event<C>>, two: seq<Event<C>>, kept: seq<Snapshot>, root: Directory, l: Layout,
                         payloads: seq<seq<uint8>>, expected: C)
    requires |a| == |l.payloads| && |two| == 1 && PayloadsReplayed(a + two, l, BytesOf(kept), expected)
    requires AllHeld(two[0].after, kept)
    requires Observed(kept, None, root, l) && BytesOf(kept) == payloads && FromCreations(a, kept, None, l)
    ensures KeptRun(a + two, kept, root, l, payloads, expected)
  {
    FromCreationsExtend(a, two, kept, None, l);
  }

  /** The part of `publish` up to the first conserve. `ready` holds the payload snapshots it keeps, which are what
      the creations observed. */
  method PublishKept<C(==,!new)>(w: World<C>, root: Directory, l: Layout, payloads: seq<seq<uint8>>, expected: C)
    returns (ready: Result<seq<Snapshot>, CustodyError>, ghost ev: seq<Event<C>>)
    requires WellFormedLayout(l) && |payloads| == |l.payloads|
    requires w.Valid()
    modifies w
    ensures w.Valid()
    ensures w.trace == old(w.trace) + ev && Course(ev, root, old(w.fs), w.fs) && InitialPart(ev, l)
    ensures |ev| <= |l.payloads| + 1 && BeganEmpty(ev, old(w.fs), root)
    ensures ready.Ok? ==> KeptRun(ev, ready.value, root, l, payloads, expected)
    ensures BenignUntil(w.env, expected, |old(w.trace)| + |l.payloads| + 1) && EmptyDirectory(old(w.fs), root)
            && Within(payloads, l) ==>
              ready.Ok? && PayloadsCreated(w.fs, root, ready.value, l)
  {
    ev := [];
    if VerifyDir(w.fs, root).Err? {
      return Err(DirectoryDrift), ev;
    }
    var empty := RequireNames(w.fs, root, []);
    if empty.Err? {
      return Err(empty.error), ev;
    }
    ready, ev := CreateReadReplay(w, root, l, payloads, expected);
  }

  method CreateReadReplay<C(==,!new)>(w: World<C>, root: Directory, l: Layout, payloads: seq<seq<uint8>>, expected: C)
    returns (ready: Result<seq<Snapshot>, CustodyError>, ghost ev: seq<Event<C>>)
    requires WellFormedLayout(l) && |payloads| == |l.payloads| && EmptyDirectory(w.fs, root)
    requires w.Valid()
    modifies w
    ensures w.Valid()
    ensures w.trace == old(w.trace) + ev && Course(ev, root, old(w.fs), w.fs) && InitialPart(ev, l)
    ensures |ev| <= |l.payloads| + 1
    ensures ready.Ok? ==> KeptRun(ev, ready.value, root, l, payloads, expected)
    ensures BenignUntil(w.env, expected, |old(w.trace)| + |l.payloads| + 1) && Within(payloads, l) ==>
              ready.Ok? && PayloadsCreated(w.fs, root, ready.value, l)
  {
    var kept, a := CreateAndRead(w, root, l, payloads);
    ev := a;
    if kept.Err? {
      return kept, ev;
    }
    ghost var mid, two := w.fs, [];
    ready, two := ReplayKept(w, root, l, kept.value, expected, a);
    CourseAppend(a, two, root, old(w.fs), mid, w.fs);
    ev := a + two;
    Joined(old(w.trace), a, two);
    if ready.Ok? { KeptRunCloses(a, two, kept.value, root, l, payloads, expected); }
  }

  /** The replay of the kept snapshots, and the check that they are still there. */
  method ReplayKept<C(==,!new)>(w: World<C>, root: Directory, l: Layout, files: seq<Snapshot>, expected: C,
                                ghost done: seq<Event<C>>)
    returns (ready: Result<seq<Snapshot>, CustodyError>, ghost ev: seq<Event<C>>)
    requires WellFormedLayout(l) && Observed(files, None, root, l) && AllHeld(w.fs, files)
    requires |done| == |l.payloads| && InitialPart(done, l)
    requires w.Valid()
    modifies w
    ensures w.Valid()
    ensures w.trace == old(w.trace) + ev && Course(ev, root, old(w.fs), w.fs) && InitialPart(done + ev, l)
    ensures |ev| == 1 && ev[0].before == old(w.fs)
    ensures ready.Ok? ==>
              && PayloadsReplayed(done + ev, l, BytesOf(files), expected) && ready.value == files
              && AllHeld(ev[0].after, files)
    ensures BenignUntil(w.env, expected, |old(w.trace)| + 1) ==> ready.Ok? && w.fs == old(w.fs)
  {
    var answer, one := w.Replay(BytesOf(files));
    CourseCallback(one[0], root);
    PartExtends(done, one[0], l);
    ev := one;
    if answer.None? {
      return Err(ReplayFailed), ev;
    }
    if answer.value != expected {
      return Err(ReplayDiffers), ev;
    }
    VerifyAllIffHeld(w.fs, files);
    var held := VerifyAll(w.fs, files);
    return if held.Err? then Err(held.error) else Ok(files), ev;
  }

  ghost predicate Within(payloads: seq<seq<uint8>>, l: Layout)
    requires |l.payloads| == |l.limits|
  {
    |payloads| == |l.payloads| && forall i :: 0 <= i < |payloads| ==> 0 < |payloads[i]| <= l.limits[i]
  }

  lemma CreatedReads(fs: FsState, root: Directory, made: seq<Snapshot>, l: Layout, payloads: seq<seq<uint8>>)
    requires WellFormedLayout(l) && Within(payloads, l) && BytesOf(made) == payloads
    requires Observed(made, None, root, l) && JustCreated(fs, root, made)
    ensures Reads(fs, root, l, |l.payloads|) == Ok(made)
  {
    forall i | 0 <= i < |made| ensures |made[i].bytes| <= l.limits[i] {
      assert payloads[i] == made[i].bytes;
    }
    HeldReads(fs, root, made, l, |made|);
    assert made[..|made|] == made;
  }
}
