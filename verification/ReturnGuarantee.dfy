/** How far the guarantee of the sibling protocol reaches: what a run is led to, and what its last callback decides. */
module ReturnGuarantee {
  import opened Wrappers
  import opened Words
  import opened FileSystem
  import opened Publication
  import opened SharedPublication

  /** Whatever a successful conserve does, it keeps every complete observation of a published directory complete. */
  ghost predicate KeepsComplete<C(!new)>(env: Environment<C>, root: Directory, l: Layout, codec: Codec<C>)
    requires |l.payloads| == |l.limits|
  {
    forall h, fs, files, manifest ::
      env.conserve(h, fs).0 && Publishable(fs, root, l, codec) && Complete(fs, root, files, manifest, l) ==>
        Complete(env.conserve(h, fs).1, root, files, manifest, l)
  }

  /** Under a conserve that keeps complete observations complete, the guarantee of a successful run reaches its
      return. */
  lemma KeepingConserveReachesReturn<C(!new)>(env: Environment<C>, history: seq<Event<C>>, ev: seq<Event<C>>,
                                              l: Layout, payloads: seq<seq<uint8>>, expected: C, root: Directory,
                                              seen: seq<Snapshot>, manifest: Option<Snapshot>, codec: Codec<C>,
                                              end: FsState)
    requires SharedRun(ev, l, payloads, expected, root, seen, manifest, codec, end)
    requires Faithful(env, history + ev) && KeepsComplete(env, root, l, codec)
    ensures Complete(end, root, seen, manifest, l)
  {
    var h := LastConserve(env, history, ev, l, payloads, expected, root, seen, manifest, codec, end);
    KeptComplete(env, h, ev[|l.payloads| + 4].before, root, seen, manifest, l, codec);
  }

  /** How a successful run ends. */
  lemma LastConserve<C(!new)>(env: Environment<C>, history: seq<Event<C>>, ev: seq<Event<C>>, l: Layout,
                              payloads: seq<seq<uint8>>, expected: C, root: Directory, seen: seq<Snapshot>,
                              manifest: Option<Snapshot>, codec: Codec<C>, end: FsState) returns (h: seq<Event<C>>)
    requires SharedRun(ev, l, payloads, expected, root, seen, manifest, codec, end) && Faithful(env, history + ev)
    ensures |h| == |history| + |l.payloads| + 4
    ensures var fs := ev[|l.payloads| + 4].before;
            && env.conserve(h, fs) == (true, end) && Complete(fs, root, seen, manifest, l)
            && |l.payloads| == |l.limits| && Publishable(fs, root, l, codec)
  {
    var n := |l.payloads| + 4;
    FaithfulLater(env, history, ev, n);
    h := (history + ev)[..|history| + n];
  }

  lemma KeptComplete<C(!new)>(env: Environment<C>, h: seq<Event<C>>, fs: FsState, root: Directory,
                              files: seq<Snapshot>, manifest: Option<Snapshot>, l: Layout, codec: Codec<C>)
    requires |l.payloads| == |l.limits| && KeepsComplete(env, root, l, codec)
    requires env.conserve(h, fs).0 && Publishable(fs, root, l, codec) && Complete(fs, root, files, manifest, l)
    ensures Complete(env.conserve(h, fs).1, root, files, manifest, l)
  {
  }

  lemma BenignStep<C(!new)>(env: Environment<C>, history: seq<Event<C>>, ev: seq<Event<C>>, expected: C, i: nat)
    requires Faithful(env, history + ev) && Benign(env, expected) && i < |ev| && !ev[i].Created?
    ensures ev[i].after == ev[i].before && (ev[i].Replayed? ==> ev[i].result == Some(expected))
    ensures ev[i].Conserved? ==> ev[i].ok
  {
    FaithfulLater(env, history, ev, i);
    BenignCallback(env, expected, (history + ev)[..|history| + i], ev[i]);
  }

  /** With suitable payloads a run from an empty directory in a benign environment succeeds. */
  lemma BenignRunsSucceed<C(!new)>(env: Environment<C>, history: seq<Event<C>>, ev: seq<Event<C>>, l: Layout,
                                   payloads: seq<seq<uint8>>, expected: C, root: Directory, seen: seq<Snapshot>,
                                   manifest: Option<Snapshot>, codec: Codec<C>, end: FsState)
    requires ReachedReread(ev, l, payloads, expected, root, seen, manifest, codec, end)
    requires Faithful(env, history + ev) && Benign(env, expected)
    ensures |ev| == |l.payloads| + 5 && ev[|ev| - 1].Conserved? && ev[|ev| - 1].ok
    ensures Complete(end, root, seen, manifest, l)
  {
    BenignStep(env, history, ev, expected, |l.payloads| + 3);
    assert Complete(ev[|l.payloads| + 3].after, root, seen, manifest, l);
    BenignStep(env, history, ev, expected, |l.payloads| + 4);
  }

  /** An environment that does nothing before its last conserve, which is `last`. */
  function QuietUntilLast<C(!new)>(l: Layout, expected: C, last: FsState -> (bool, FsState)): Environment<C> {
    var n := |l.payloads|;
    Environment(
      (history: seq<Event<C>>, bytes: seq<seq<uint8>>, state: FsState) => (Some(expected), state),
      (history: seq<Event<C>>, state: FsState) => if |history| < n + 4 then (true, state) else last(state),
      (history: seq<Event<C>>, state: FsState) => (true, state),
      (history: seq<Event<C>>) => NoFault,
      (history: seq<Event<C>>) => (0, 0))
  }

  /** The guarantee of the sibling protocol does not reach its return: from any empty directory, with any suitable
      payloads, `publish` succeeds in an environment that does nothing until the last conserve and then removes
      everything. */
  method LastCallbackCanUndo<C(==,!new)>(from: FsState, root: Directory, l: Layout, payloads: seq<seq<uint8>>,
                                         expected: C, codec: Codec<C>)
    returns (r: Result<(), CustodyError>, w: World<C>, ghost seen: seq<Snapshot>, ghost manifest: Option<Snapshot>)
    requires WellFormedLayout(l) && EmptyDirectory(from, root) && Suitable(l, payloads, expected, codec)
    ensures r.Ok? && w.Valid() && SharedRun(w.trace, l, payloads, expected, root, seen, manifest, codec, w.fs)
    ensures Course(w.trace, root, from, w.fs)
    ensures Entries(w.fs, root) == map[] && !Complete(w.fs, root, seen, manifest, l)
  {
    var env := QuietUntilLast(l, expected, Removed);
    w := new World(env, from);
    ghost var ev;
    r, ev, seen, manifest := Publish(w, root, l, payloads, expected, codec);
    assert w.trace == ev;
    QuietRunEnds(ev, l, payloads, expected, root, seen, manifest, codec, Removed, w.fs);
  }

  /** Successfully removes every entry. */
  function Removed(fs: FsState): (bool, FsState) {
    (true, fs.(entries := map[]))
  }

  /** A run in which nothing happens before the last conserve reaches it and ends with it. */
  lemma QuietRunEnds<C(!new)>(ev: seq<Event<C>>, l: Layout, payloads: seq<seq<uint8>>, expected: C, root: Directory,
                              seen: seq<Snapshot>, manifest: Option<Snapshot>, codec: Codec<C>,
                              last: FsState -> (bool, FsState), end: FsState)
    requires Faithful(QuietUntilLast(l, expected, last), ev)
    requires ReachedReread(ev, l, payloads, expected, root, seen, manifest, codec, end)
    ensures |ev| == |l.payloads| + 5 && (ev[|l.payloads| + 4].ok, end) == last(ev[|l.payloads| + 4].before)
  {
    var env := QuietUntilLast(l, expected, last);
    FaithfulAt(env, ev, |l.payloads| + 3);
    assert ev[|l.payloads| + 3].after == ev[|l.payloads| + 3].before;
    FaithfulAt(env, ev, |l.payloads| + 4);
  }

  /** An environment that leads a run into the state `fs`, which holds `files` and `manifest`: it gives the created
      files their nodes and versions, sets everything else in the second replay, and ends with the conserve `last`. */
  function LeadingTo<C(!new)>(fs: FsState, files: seq<Snapshot>, manifest: Snapshot, expected: C,
                              last: FsState -> (bool, FsState)): Environment<C> {
    var n := |files|;
    Environment(
      (history: seq<Event<C>>, bytes: seq<seq<uint8>>, state: FsState) =>
        (Some(expected), if |history| < n + 3 then state else fs),
      (history: seq<Event<C>>, state: FsState) => if |history| < n + 4 then (true, state) else last(state),
      (history: seq<Event<C>>, state: FsState) => (true, state),
      (history: seq<Event<C>>) => NoFault,
      (history: seq<Event<C>>) => Given(files, manifest, |history|))
  }

  /** The state before anything was created, from the state after. */
  function Emptied(fs: FsState, root: Directory, nodes: set<Node>): FsState {
    fs.(entries := fs.entries[root.Last() := map[]], files := fs.files - nodes)
  }

  /** The callbacks leave the state alone up to the second replay, and the created files get the nodes and versions
      of `files` and `manifest`. */
  ghost predicate Steers<C(!new)>(env: Environment<C>, files: seq<Snapshot>, manifest: Snapshot) {
    && (forall h, bytes, fs :: |h| < |files| + 3 ==> env.replay(h, bytes, fs).1 == fs)
    && (forall h, fs :: |h| < |files| + 3 ==> env.conserve(h, fs).1 == fs)
    && (forall h :: env.allocate(h) == Given(files, manifest, |h|))
  }

  function Given(files: seq<Snapshot>, manifest: Snapshot, i: nat): (Node, nat) {
    var given := if i < |files| then files[i] else manifest;
    (given.node, given.signature.version)
  }

  /** A run in such an environment, up to and with its second replay. */
  ghost predicate Led<C(!new)>(ev: seq<Event<C>>, from: FsState, to: FsState, root: Directory, l: Layout,
                               env: Environment<C>, files: seq<Snapshot>, manifest: Snapshot) {
    && Faithful(env, ev) && Steers(env, files, manifest) && Course(ev, root, from, to)
    && |files| == |l.payloads| && |ev| >= |l.payloads| + 4 && InitialPart(ev[..|l.payloads| + 4], l)
    && from.files.Keys !! Nodes(files + [manifest]) && |Nodes(files + [manifest])| == |files| + 1
  }

  lemma LedLabel<C(!new)>(ev: seq<Event<C>>, l: Layout, i: nat)
    requires |ev| >= |l.payloads| + 4 && InitialPart(ev[..|l.payloads| + 4], l) && i < |l.payloads| + 4
    ensures LabelOf(ev[i]) == Protocol(l)[i]
  {
    assert ev[..|l.payloads| + 4][i] == ev[i];
  }

  /** The files before step `i`: those at the start and those created so far. */
  ghost predicate FilesBefore<C>(ev: seq<Event<C>>, from: FsState, files: seq<Snapshot>, i: nat)
    requires i < |ev|
  {
    ev[i].before.files.Keys == from.files.Keys + Nodes(files[..if i < |files| then i else |files|])
  }

  lemma {:induction false} LedFiles<C(!new)>(ev: seq<Event<C>>, from: FsState, to: FsState, root: Directory, l: Layout,
                                             env: Environment<C>, files: seq<Snapshot>, manifest: Snapshot, i: nat)
    requires Led(ev, from, to, root, l, env, files, manifest) && i <= |files| + 2
    ensures FilesBefore(ev, from, files, i)
  {
    ChainedAt(ev, from, to, i);
    if i > 0 {
      LedFiles(ev, from, to, root, l, env, files, manifest, i - 1);
      if i - 1 < |files| {
        LedNode(ev, from, to, root, l, env, files, manifest, i - 1);
        FilesAfterCreation(ev[i - 1], root, from.files.Keys, files, i);
      } else {
        LedQuiet(ev, from, to, root, l, env, files, manifest, i - 1);
      }
    }
  }

  lemma FilesAfterCreation<C>(e: Event<C>, root: Directory, start: set<Node>, files: seq<Snapshot>, i: nat)
    requires 0 < i <= |files| && e.Created? && OwnCreation(e.before, e.after, root, e.name, e.node)
    requires e.before.files.Keys == start + Nodes(files[..i - 1]) && e.node == files[i - 1].node
    ensures e.after.files.Keys == start + Nodes(files[..i])
  {
    CreationAddsNode(e, root);
    assert files[..i][..i - 1] == files[..i - 1];
  }

  lemma CreationAddsNode<C>(e: Event<C>, root: Directory)
    requires e.Created? && OwnCreation(e.before, e.after, root, e.name, e.node)
    ensures e.after.files.Keys == e.before.files.Keys + {e.node}
  {
    assert e.after.files.Keys == (e.after.files - {e.node}).Keys + {e.node};
  }

  lemma LedQuiet<C(!new)>(ev: seq<Event<C>>, from: FsState, to: FsState, root: Directory, l: Layout,
                          env: Environment<C>, files: seq<Snapshot>, manifest: Snapshot, i: nat)
    requires Led(ev, from, to, root, l, env, files, manifest) && |files| <= i <= |files| + 1
    ensures ev[i].after == ev[i].before
  {
    LedLabel(ev, l, i);
    FaithfulAt(env, ev, i);
  }

  /** The node a creation is to have is free. */
  lemma GivenIsFree(from: FsState, files: seq<Snapshot>, manifest: Snapshot, i: nat)
    requires from.files.Keys !! Nodes(files + [manifest]) && |Nodes(files + [manifest])| == |files| + 1
    ensures Given(files, manifest, i).0 !in from.files.Keys + Nodes(files[..if i < |files| then i else |files|])
  {
    var all := files + [manifest];
    var k := if i < |files| then i else |files|;
    DistinctNodes(all, k);
    assert all[..k] == files[..k];
    NodeIn(all, k);
  }

  /** Each creation has the node and version it was to have. */
  lemma LedNode<C(!new)>(ev: seq<Event<C>>, from: FsState, to: FsState, root: Directory, l: Layout,
                         env: Environment<C>, files: seq<Snapshot>, manifest: Snapshot, i: nat)
    requires Led(ev, from, to, root, l, env, files, manifest) && (i < |files| || i == |files| + 2)
    requires FilesBefore(ev, from, files, i)
    ensures ev[i].Created? && OwnCreation(ev[i].before, ev[i].after, root, ev[i].name, ev[i].node)
    ensures (ev[i].node, ev[i].after.files[ev[i].node].version) == Given(files, manifest, i)
  {
    LedLabel(ev, l, i);
    FaithfulAt(env, ev, i);
    GivenIsFree(from, files, manifest, i);
    assert |ev[..i]| == i;
  }

  lemma SameSnapshot(s: Snapshot, t: Snapshot, root: Directory, name: Name)
    requires Observes(s, root, name) && Observes(t, root, name)
    requires s.node == t.node && s.signature.version == t.signature.version && s.bytes == t.bytes
    ensures s == t
  {
  }

  lemma LedSees<C(!new)>(ev: seq<Event<C>>, from: FsState, to: FsState, root: Directory, l: Layout,
                         env: Environment<C>, files: seq<Snapshot>, manifest: Snapshot, i: nat, s: Snapshot)
    requires Led(ev, from, to, root, l, env, files, manifest) && (i < |files| || i == |files| + 2)
    requires CreationOf(ev[i], s)
    ensures (s.node, s.signature.version) == Given(files, manifest, i)
  {
    LedFiles(ev, from, to, root, l, env, files, manifest, i);
    LedNode(ev, from, to, root, l, env, files, manifest, i);
  }

  /** What such a run observes is what was to be created. */
  lemma LedSeesGiven<C(!new)>(ev: seq<Event<C>>, from: FsState, to: FsState, root: Directory, l: Layout,
                              env: Environment<C>, files: seq<Snapshot>, manifest: Snapshot,
                              seen: seq<Snapshot>, made: Snapshot)
    requires Led(ev, from, to, root, l, env, files, manifest)
    requires Observed(files, Some(manifest), root, l) && Observed(seen, Some(made), root, l) && |seen| == |files|
    requires FromCreations(ev, seen, Some(made), l) && BytesOf(seen) == BytesOf(files) && made.bytes == manifest.bytes
    ensures seen == files && made == manifest
  {
    forall i | 0 <= i < |files| ensures seen[i] == files[i] {
      LedSees(ev, from, to, root, l, env, files, manifest, i, seen[i]);
      assert BytesOf(seen)[i] == BytesOf(files)[i];
      SameSnapshot(seen[i], files[i], root, l.payloads[i]);
    }
    LedSees(ev, from, to, root, l, env, files, manifest, |files| + 2, made);
    SameSnapshot(made, manifest, root, l.manifest);
  }

  lemma LeadingSteers<C(!new)>(fs: FsState, files: seq<Snapshot>, manifest: Snapshot, expected: C,
                               last: FsState -> (bool, FsState))
    ensures Steers(LeadingTo(fs, files, manifest, expected, last), files, manifest)
  {
  }

  lemma LeadingIsBenign<C(!new)>(fs: FsState, files: seq<Snapshot>, manifest: Snapshot, expected: C,
                                 last: FsState -> (bool, FsState))
    ensures BenignUntil(LeadingTo(fs, files, manifest, expected, last), expected, |files| + 2)
  {
  }

  lemma EmptiedIsEmpty(fs: FsState, root: Directory, files: seq<Snapshot>, manifest: Snapshot, l: Layout)
    requires Complete(fs, root, files, Some(manifest), l)
    ensures EmptyDirectory(Emptied(fs, root, Nodes(files + [manifest])), root)
    ensures Emptied(fs, root, Nodes(files + [manifest])).files.Keys !! Nodes(files + [manifest])
  {
  }

  /** The end of a run led to `fs`, once it is known to observe what `fs` holds. */
  lemma LedEnds<C(!new)>(ev: seq<Event<C>>, l: Layout, payloads: seq<seq<uint8>>, root: Directory, fs: FsState,
                         files: seq<Snapshot>, manifest: Snapshot, expected: C, codec: Codec<C>,
                         last: FsState -> (bool, FsState), end: FsState)
    requires |files| == |l.payloads| && Faithful(LeadingTo(fs, files, manifest, expected, last), ev)
    requires ReachedReread(ev, l, payloads, expected, root, files, Some(manifest), codec, end)
    requires Complete(fs, root, files, Some(manifest), l)
    ensures |ev| == |files| + 5 && ev[|files| + 4] == Conserved(last(fs).0, fs, last(fs).1) && end == last(fs).1
  {
    var env := LeadingTo(fs, files, manifest, expected, last);
    FaithfulAt(env, ev, |files| + 3);
    assert ev[|files| + 3].after == fs;
    FaithfulAt(env, ev, |files| + 4);
  }

  /** In a published directory the observations are those of a run with these payloads and this checkpoint. */
  lemma PublishedIsSuitable<C>(fs: FsState, root: Directory, l: Layout, files: seq<Snapshot>, manifest: Snapshot,
                               expected: C, codec: Codec<C>)
    requires WellFormedLayout(l) && Publishable(fs, root, l, codec) && Complete(fs, root, files, Some(manifest), l)
    requires codec.Decode(manifest.bytes) == Some(expected)
    ensures Suitable(l, BytesOf(files), expected, codec) && codec.encode(expected) == Some(manifest.bytes)
    ensures |Nodes(files + [manifest])| == |files| + 1
  {
    PublishableReads(fs, root, files, manifest, l, codec);
    ReadIsHeld(fs, root, l.manifest, l.manifestMax);
    WithinLimits(files, root, l);
  }

  lemma WithinLimits(files: seq<Snapshot>, root: Directory, l: Layout)
    requires Observed(files, None, root, l) && |files| == |l.payloads| == |l.limits|
    requires forall i :: 0 <= i < |files| ==> |files[i].bytes| <= l.limits[i]
    ensures Within(BytesOf(files), l)
  {
  }

  /** What a run led to `fs` sees and how it ends. */
  lemma LedDecides<C(!new)>(ev: seq<Event<C>>, from: FsState, fs: FsState, root: Directory, l: Layout,
                            files: seq<Snapshot>, manifest: Snapshot, expected: C, codec: Codec<C>,
                            last: FsState -> (bool, FsState), seen: seq<Snapshot>, made: Option<Snapshot>, end: FsState)
    requires Faithful(LeadingTo(fs, files, manifest, expected, last), ev) && Course(ev, root, from, end)
    requires from.files.Keys !! Nodes(files + [manifest]) && |Nodes(files + [manifest])| == |files| + 1
    requires Complete(fs, root, files, Some(manifest), l) && codec.encode(expected) == Some(manifest.bytes)
    requires ReachedReread(ev, l, BytesOf(files), expected, root, seen, made, codec, end)
    ensures seen == files && made == Some(manifest)
    ensures |ev| == |files| + 5 && ev[|files| + 4] == Conserved(last(fs).0, fs, last(fs).1) && end == last(fs).1
  {
    LeadingSteers(fs, files, manifest, expected, last);
    LedSeesGiven(ev, from, end, root, l, LeadingTo(fs, files, manifest, expected, last), files, manifest, seen,
                 made.value);
    LedEnds(ev, l, BytesOf(files), root, fs, files, manifest, expected, codec, last, end);
  }

  /** Conversely, what a conserve breaks is broken at return. Take any published directory and any conserve `last`:
      there is a run of `publish`, from an empty directory and in an environment whose last conserve is `last`, that
      enters it in just that state with just those observations, succeeds exactly when it does, and leaves what it
      leaves. */
  method LastCallbackDecides<C(==,!new)>(fs: FsState, root: Directory, l: Layout, files: seq<Snapshot>,
                                         manifest: Snapshot, expected: C, codec: Codec<C>,
                                         last: FsState -> (bool, FsState))
    returns (r: Result<(), CustodyError>, w: World<C>)
    requires WellFormedLayout(l) && Publishable(fs, root, l, codec) && Complete(fs, root, files, Some(manifest), l)
    requires codec.Decode(manifest.bytes) == Some(expected)
    ensures w.Valid() && w.env == LeadingTo(fs, files, manifest, expected, last)
    ensures var from := Emptied(fs, root, Nodes(files + [manifest]));
            EmptyDirectory(from, root) && Course(w.trace, root, from, w.fs)
    ensures ReachedReread(w.trace, l, BytesOf(files), expected, root, files, Some(manifest), codec, w.fs)
    ensures |w.trace| == |files| + 5 && w.trace[|files| + 4] == Conserved(last(fs).0, fs, last(fs).1)
    ensures r.Ok? ==> SharedRun(w.trace, l, BytesOf(files), expected, root, files, Some(manifest), codec, w.fs)
    ensures r.Ok? <==> last(fs).0
    ensures w.fs == last(fs).1
  {
    var env := LeadingTo(fs, files, manifest, expected, last);
    var from := Emptied(fs, root, Nodes(files + [manifest]));
    PublishedIsSuitable(fs, root, l, files, manifest, expected, codec);
    EmptiedIsEmpty(fs, root, files, manifest, l);
    LeadingIsBenign(fs, files, manifest, expected, last);
    w := new World(env, from);
    ghost var ev, seen, made;
    r, ev, seen, made := Publish(w, root, l, BytesOf(files), expected, codec);
    assert w.trace == ev;
    LedDecides(ev, from, fs, root, l, files, manifest, expected, codec, last, seen, made, w.fs);
  }

  // ---------- The exact condition ----------

  /** A successful run of `publish` from an empty directory. */
  ghost predicate SuccessfulRun<C(!new)>(env: Environment<C>, ev: seq<Event<C>>, from: FsState, to: FsState,
                                         l: Layout, payloads: seq<seq<uint8>>, expected: C, root: Directory,
                                         seen: seq<Snapshot>, manifest: Option<Snapshot>, codec: Codec<C>) {
    && EmptyDirectory(from, root) && Faithful(env, ev) && Course(ev, root, from, to)
    && SharedRun(ev, l, payloads, expected, root, seen, manifest, codec, to)
  }

  /** The last conserve of a run in this environment is `last`. */
  ghost predicate EndsWith<C(!new)>(env: Environment<C>, l: Layout, last: FsState -> (bool, FsState)) {
    forall h, fs :: |h| >= |l.payloads| + 4 ==> env.conserve(h, fs) == last(fs)
  }

  /** Every successful run whose last conserve is `last` returns with what it published still complete. */
  ghost predicate GuaranteesReturn<C(!new)>(last: FsState -> (bool, FsState), root: Directory, l: Layout,
                                            codec: Codec<C>) {
    forall env, ev, from, to, payloads, expected, seen, manifest ::
      EndsWith(env, l, last) && SuccessfulRun(env, ev, from, to, l, payloads, expected, root, seen, manifest, codec) ==>
        Complete(to, root, seen, manifest, l)
  }

  /** Whenever `last` succeeds in a published directory, it keeps what is observed there complete. */
  ghost predicate KeepsPublished<C(!new)>(last: FsState -> (bool, FsState), root: Directory, l: Layout,
                                          codec: Codec<C>)
    requires |l.payloads| == |l.limits|
  {
    forall fs, files, manifest ::
      last(fs).0 && Publishable(fs, root, l, codec) && Complete(fs, root, files, manifest, l) ==>
        Complete(last(fs).1, root, files, manifest, l)
  }

  lemma RunSnoc<C(!new)>(env: Environment<C>, ev: seq<Event<C>>, root: Directory, from: FsState, e: Event<C>)
    requires Faithful(env, ev) && Course(ev, root, from, e.before) && Agrees(env, ev, e)
    requires e.Created? ==> OwnCreation(e.before, e.after, root, e.name, e.node)
    ensures Faithful(env, ev + [e]) && Course(ev + [e], root, from, e.after)
  {
    FaithfulSnoc(env, ev, e);
    ChainedOne(e);
    CourseAppend(ev, [e], root, from, e.before, e.after);
  }

  lemma NodesPrefix(files: seq<Snapshot>, n: nat)
    requires n < |files|
    ensures files[..n] + [files[n]] == files[..n + 1] && Nodes(files[..n + 1]) == Nodes(files[..n]) + {files[n].node}
  {
    assert files[..n + 1][..n] == files[..n];
  }

  lemma TwoMore<T>(s: seq<T>, a: T, b: T)
    ensures s + [a] + [b] == s + [a, b]
  {
  }

  lemma WholePrefix<T>(s: seq<T>)
    ensures s[..|s|] == s
  {
  }

  /** In an environment that leads to `files` and `manifest`, the first `n` creations from `from`. */
  lemma {:induction false} LedWriting<C(!new)>(env: Environment<C>, from: FsState, root: Directory, l: Layout,
                                               files: seq<Snapshot>, manifest: Snapshot, n: nat)
    returns (ev: seq<Event<C>>, fs: FsState)
    requires WellFormedLayout(l) && Observed(files, Some(manifest), root, l) && n <= |files| == |l.payloads|
    requires Steers(env, files, manifest) && EmptyDirectory(from, root)
    requires from.files.Keys !! Nodes(files + [manifest]) && |Nodes(files + [manifest])| == |files| + 1
    ensures Writing(ev, files[..n], BytesOf(files), from, fs, root, l) && Faithful(env, ev)
    ensures fs.files.Keys == from.files.Keys + Nodes(files[..n])
  {
    if n == 0 {
      ev, fs := [], from;
    } else {
      var front, before := LedWriting(env, from, root, l, files, manifest, n - 1);
      GivenIsFree(from, files, manifest, n - 1);
      ev, fs := LedCreation(env, front, from, before, root, l, files, n - 1);
    }
  }

  /** The creation that makes what `s` observes. */
  lemma CreationIn<C>(fs: FsState, root: Directory, s: Snapshot) returns (e: Event<C>)
    requires DirVerified(fs, root) && s.dir == root && s.name !in Entries(fs, root) && s.node !in fs.files
    ensures e.Created? && e.before == fs && e.name == s.name && e.node == s.node && CreationOf(e, s)
    ensures OwnCreation(fs, e.after, root, s.name, s.node) && e.after.files[s.node].version == s.signature.version
    ensures e.after.files.Keys == fs.files.Keys + {s.node}
  {
    e := Created(s.name, s.node, fs, WithFile(fs, root, s.name, s.node, FileData(s.bytes, s.signature.version, 1)));
  }

  /** The next creation. */
  lemma LedCreation<C(!new)>(env: Environment<C>, ev: seq<Event<C>>, from: FsState, before: FsState, root: Directory,
                             l: Layout, files: seq<Snapshot>, n: nat)
    returns (ev': seq<Event<C>>, fs: FsState)
    requires WellFormedLayout(l) && Observed(files, None, root, l) && n < |files| == |l.payloads|
    requires Writing(ev, files[..n], BytesOf(files), from, before, root, l) && Faithful(env, ev)
    requires env.allocate(ev) == (files[n].node, files[n].signature.version) && files[n].node !in before.files
    requires before.files.Keys == from.files.Keys + Nodes(files[..n])
    ensures Writing(ev', files[..n + 1], BytesOf(files), from, fs, root, l) && Faithful(env, ev')
    ensures fs.files.Keys == from.files.Keys + Nodes(files[..n + 1])
  {
    NodesPrefix(files, n);
    WritingNextFree(ev, files[..n], BytesOf(files), from, before, root, l);
    var e: Event<C> := CreationIn(before, root, files[n]);
    WritingExtends(ev, files[..n], BytesOf(files), from, root, l, e, files[n]);
    FaithfulSnoc(env, ev, e);
    ev', fs := ev + [e], e.after;
  }

  /** The creations, the first replay, the first conserve and the manifest of a run that is led. */
  lemma LedUntilManifest<C(!new)>(fs: FsState, root: Directory, l: Layout, files: seq<Snapshot>, manifest: Snapshot,
                                  expected: C, codec: Codec<C>, last: FsState -> (bool, FsState))
    returns (ev: seq<Event<C>>, mid: FsState)
    requires WellFormedLayout(l) && Publishable(fs, root, l, codec) && Complete(fs, root, files, Some(manifest), l)
    requires codec.Decode(manifest.bytes) == Some(expected)
    ensures var from := Emptied(fs, root, Nodes(files + [manifest]));
            && Faithful(LeadingTo(fs, files, manifest, expected, last), ev) && Course(ev, root, from, mid)
            && ReadyToReread(ev, files, manifest, mid, root, l, BytesOf(files), expected, codec)
            && JustCreated(mid, root, files + [manifest])
  {
    var env := LeadingTo(fs, files, manifest, expected, last);
    var from := Emptied(fs, root, Nodes(files + [manifest]));
    PublishedIsSuitable(fs, root, l, files, manifest, expected, codec);
    EmptiedIsEmpty(fs, root, files, manifest, l);
    LeadingSteers(fs, files, manifest, expected, last);
    LeadingIsBenign(fs, files, manifest, expected, last);
    var a, s := LedWriting<C>(env, from, root, l, files, manifest, |files|);
    WholePrefix(files);
    GivenIsFree(from, files, manifest, |files| + 2);
    WritingDone(a, files, BytesOf(files), from, s, root, l);
    ev, mid := LedManifest(env, from, root, l, files, manifest, expected, codec, a, s);
  }

  /** The same after the creations `a`, which led from the state `from` to the state `s`. */
  lemma LedManifest<C(!new)>(env: Environment<C>, from: FsState, root: Directory, l: Layout, files: seq<Snapshot>,
                             manifest: Snapshot, expected: C, codec: Codec<C>, a: seq<Event<C>>, s: FsState)
    returns (ev: seq<Event<C>>, mid: FsState)
    requires WellFormedLayout(l) && Observed(files, Some(manifest), root, l) && |a| == |files| == |l.payloads|
    requires Steers(env, files, manifest) && BenignUntil(env, expected, |files| + 2) && manifest.node !in s.files
    requires Faithful(env, a) && Course(a, root, from, s) && InitialPart(a, l)
    requires JustCreated(s, root, files) && FromCreations(a, files, None, l)
    requires Some(manifest.bytes) == codec.encode(expected)
    ensures Faithful(env, ev) && Course(ev, root, from, mid) && JustCreated(mid, root, files + [manifest])
    ensures ReadyToReread(ev, files, manifest, mid, root, l, BytesOf(files), expected, codec)
  {
    var b, c: Event<C> := Replayed(BytesOf(files), Some(expected), s, s), Conserved(true, s, s);
    var d: Event<C> := ManifestCreation(s, root, l, files, manifest);
    ev, mid := a + [b] + [c] + [d], d.after;
    LedSteps(env, a, b, c, d, root, from, expected);
    LedIsReady(a, b, c, d, files, manifest, root, l, expected, codec);
  }

  lemma LedSteps<C(!new)>(env: Environment<C>, a: seq<Event<C>>, b: Event<C>, c: Event<C>, d: Event<C>, root: Directory,
                          from: FsState, expected: C)
    requires Faithful(env, a) && Course(a, root, from, b.before) && BenignUntil(env, expected, |a| + 2)
    requires b.Replayed? && b == Replayed(b.payloads, Some(expected), b.before, b.before)
    requires c == Conserved(true, b.before, b.before)
    requires d.Created? && d.before == b.before && OwnCreation(d.before, d.after, root, d.name, d.node)
    requires forall h :: |h| == |a| + 2 ==> env.allocate(h) == (d.node, d.after.files[d.node].version)
    ensures Faithful(env, a + [b] + [c] + [d]) && Course(a + [b] + [c] + [d], root, from, d.after)
  {
    RunSnoc(env, a, root, from, b);
    RunSnoc(env, a + [b], root, from, c);
    RunSnoc(env, a + [b] + [c], root, from, d);
  }

  lemma ManifestCreation<C>(s: FsState, root: Directory, l: Layout, files: seq<Snapshot>, manifest: Snapshot)
    returns (d: Event<C>)
    requires WellFormedLayout(l) && Observed(files, Some(manifest), root, l) && |files| == |l.payloads|
    requires manifest.node !in s.files && JustCreated(s, root, files)
    ensures d.Created? && d.before == s && d.name == manifest.name && d.node == manifest.node
    ensures OwnCreation(s, d.after, root, d.name, d.node) && CreationOf(d, manifest)
    ensures d.after.files[d.node].version == manifest.signature.version
    ensures JustCreated(d.after, root, files + [manifest])
  {
    AllPayloadNames(s, root, files, l);
    d := CreationIn(s, root, manifest);
    CreationExtends(s, d.after, root, files, manifest);
  }

  lemma LedIsReady<C(!new)>(a: seq<Event<C>>, b: Event<C>, c: Event<C>, d: Event<C>, files: seq<Snapshot>,
                            manifest: Snapshot, root: Directory, l: Layout, expected: C, codec: Codec<C>)
    requires |a| == |files| == |l.payloads| && InitialPart(a, l) && FromCreations(a, files, None, l)
    requires b.Replayed? && b.payloads == BytesOf(files) && b.result == Some(expected) && AllHeld(b.after, files)
    requires c.Conserved? && c.ok && Observed(files, Some(manifest), root, l) && CreationOf(d, manifest)
    requires Some(manifest.bytes) == codec.encode(expected)
    ensures ReadyToReread(a + [b] + [c] + [d], files, manifest, d.after, root, l, BytesOf(files), expected, codec)
  {
    PartExtends(a, b, l);
    PartExtends(a + [b], c, l);
    PartExtends(a + [b] + [c], d, l);
    FromCreationsExtend(a, [b], files, None, l);
    TwoMore(a + [b], c, d);
    ReadyAfterManifest(a + [b], [c, d], files, manifest, d.after, root, l, BytesOf(files), expected, codec);
  }

  /** A successful run whose last conserve `last` is entered in the published directory `fs`. */
  lemma LedRun<C(!new)>(fs: FsState, root: Directory, l: Layout, files: seq<Snapshot>, manifest: Snapshot, expected: C,
                        codec: Codec<C>, last: FsState -> (bool, FsState)) returns (ev: seq<Event<C>>)
    requires WellFormedLayout(l) && Publishable(fs, root, l, codec) && Complete(fs, root, files, Some(manifest), l)
    requires codec.Decode(manifest.bytes) == Some(expected) && last(fs).0
    ensures SuccessfulRun(LeadingTo(fs, files, manifest, expected, last), ev,
                          Emptied(fs, root, Nodes(files + [manifest])), last(fs).1, l, BytesOf(files), expected, root,
                          files, Some(manifest), codec)
  {
    var env := LeadingTo(fs, files, manifest, expected, last);
    var from := Emptied(fs, root, Nodes(files + [manifest]));
    var a, mid := LedUntilManifest(fs, root, l, files, manifest, expected, codec, last);
    PublishedIsSuitable(fs, root, l, files, manifest, expected, codec);
    EmptiedIsEmpty(fs, root, files, manifest, l);
    CreatedIsComplete(mid, root, files, manifest, l);
    CompleteIsPublishable(mid, root, files, manifest, l, BytesOf(files), expected, codec);
    var again, closing := Replayed(BytesOf(files), Some(expected), mid, fs), Conserved(true, fs, last(fs).1);
    RunSnoc(env, a, root, from, again);
    RunSnoc(env, a + [again], root, from, closing);
    TwoMore(a, again, closing);
    SharedSuccess(a, [again, closing], l, BytesOf(files), expected, root, files, Some(manifest), codec, files, manifest,
                  mid, last(fs).1);
    ev := a + [again, closing];
  }

  lemma KeepingGuaranteesRun<C(!new)>(last: FsState -> (bool, FsState), env: Environment<C>, ev: seq<Event<C>>,
                                      l: Layout, payloads: seq<seq<uint8>>, expected: C, root: Directory,
                                      seen: seq<Snapshot>, manifest: Option<Snapshot>, codec: Codec<C>, end: FsState)
    requires |l.payloads| == |l.limits| && KeepsPublished(last, root, l, codec) && EndsWith(env, l, last)
    requires Faithful(env, ev) && SharedRun(ev, l, payloads, expected, root, seen, manifest, codec, end)
    ensures Complete(end, root, seen, manifest, l)
  {
    assert [] + ev == ev;
    var h := LastConserve(env, [], ev, l, payloads, expected, root, seen, manifest, codec, end);
    var fs := ev[|l.payloads| + 4].before;
    assert last(fs) == (true, end);
  }

  lemma KeepingGuarantees<C(!new)>(last: FsState -> (bool, FsState), root: Directory, l: Layout, codec: Codec<C>)
    requires |l.payloads| == |l.limits| && KeepsPublished(last, root, l, codec)
    ensures GuaranteesReturn(last, root, l, codec)
  {
    forall env, ev, from, to, payloads, expected, seen, manifest |
      EndsWith(env, l, last) && SuccessfulRun(env, ev, from, to, l, payloads, expected, root, seen, manifest, codec)
      ensures Complete(to, root, seen, manifest, l)
    {
      KeepingGuaranteesRun(last, env, ev, l, payloads, expected, root, seen, manifest, codec, to);
    }
  }

  lemma GuaranteeKeepsAt<C(!new)>(last: FsState -> (bool, FsState), root: Directory, l: Layout, codec: Codec<C>,
                                  fs: FsState, files: seq<Snapshot>, manifest: Snapshot)
    requires WellFormedLayout(l) && GuaranteesReturn(last, root, l, codec)
    requires last(fs).0 && Publishable(fs, root, l, codec) && Complete(fs, root, files, Some(manifest), l)
    ensures Complete(last(fs).1, root, files, Some(manifest), l)
  {
    PublishableReads(fs, root, files, manifest, l, codec);
    var expected := codec.Decode(manifest.bytes).value;
    var ev := LedRun(fs, root, l, files, manifest, expected, codec, last);
    assert EndsWith(LeadingTo(fs, files, manifest, expected, last), l, last);
  }

  /** The guarantee reaches the return of every successful run exactly when the last conserve keeps what is
      published. */
  lemma GuaranteeIff<C(!new)>(last: FsState -> (bool, FsState), root: Directory, l: Layout, codec: Codec<C>)
    requires WellFormedLayout(l)
    ensures GuaranteesReturn(last, root, l, codec) <==> KeepsPublished(last, root, l, codec)
  {
    if KeepsPublished(last, root, l, codec) { KeepingGuarantees(last, root, l, codec); }
    if GuaranteesReturn(last, root, l, codec) {
      forall fs, files, manifest |
        last(fs).0 && Publishable(fs, root, l, codec) && Complete(fs, root, files, manifest, l)
        ensures Complete(last(fs).1, root, files, manifest, l)
      {
        GuaranteeKeepsAt(last, root, l, codec, fs, files, manifest.value);
      }
    }
  }
}
