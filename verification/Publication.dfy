/** Create-only publication with retained custody, under interference inside every callback. */
module Publication {
  import opened Wrappers
  import opened Words
  import opened FileSystem

  /** The payload names with their byte limits, and the manifest. */
  datatype Layout = Layout(payloads: seq<Name>, limits: seq<nat>, manifest: Name, manifestMax: nat)

  ghost predicate WellFormedLayout(l: Layout) {
    && |l.payloads| == |l.limits| > 0
    && (forall i, j :: 0 <= i < j < |l.payloads| ==> l.payloads[i] != l.payloads[j])
    && l.manifest !in l.payloads
  }

  const FINAL_LAYOUT := Layout(
    ["final-ancestry.borsh", "final.receipt-oracle.bincode", "final.raw-seal.bin",
     "alternate-chain-domain-statement.bin"],
    [33_554_432, 1_048_576, 222_668, 16_543], "alternate-statement-final-checkpoint.json", 16_384)

  lemma FinalLayoutIsWellFormed()
    ensures WellFormedLayout(FINAL_LAYOUT)
  {
    var p := FINAL_LAYOUT.payloads;
    assert p[0][6] != p[1][6] && p[0][0] != p[3][0] && p[1][0] != p[3][0] && p[2][0] != p[3][0];
    assert |p[0]| != |p[2]| && |p[1]| != |p[2]|;
    assert |FINAL_LAYOUT.manifest| == 41 && forall i :: 0 <= i < 4 ==> |p[i]| != 41;
  }

  /** `Checkpoint::encode` and the typed parser, either of which may refuse, and `Checkpoint::decode`, which
      accepts only what encodes back. */
  datatype Codec<!C> = Codec(encode: C -> Option<seq<uint8>>, parse: seq<uint8> -> Option<C>) {
    function Decode(bytes: seq<uint8>): Option<C> {
      match parse(bytes)
      case None => None
      case Some(value) => if encode(value) == Some(bytes) then Some(value) else None
    }
  }

  /** No two checkpoints have one encoding. */
  ghost predicate Injective<C(!new)>(codec: Codec<C>) {
    forall a, b :: codec.encode(a).Some? && codec.encode(a) == codec.encode(b) ==> a == b
  }

  function AllNames(l: Layout): seq<Name> {
    l.payloads + [l.manifest]
  }

  // ---------- Observations ----------

  /** `OutputObservations`: filled one creation or read at a time, never replaced. */
  class OutputObservations {
    var files: seq<Snapshot>
    var manifest: Option<Snapshot>

    constructor ()
      ensures files == [] && manifest == None
    {
      files, manifest := [], None;
    }
  }

  function BytesOf(files: seq<Snapshot>): (b: seq<seq<uint8>>)
    ensures |b| == |files|
  {
    seq(|files|, i requires 0 <= i < |files| => files[i].bytes)
  }

  /** A snapshot of `name` in `root`, as reading or creating makes them. */
  ghost predicate Observes(s: Snapshot, root: Directory, name: Name) {
    s.dir == root && s.name == name && s.signature.length == |s.bytes| > 0
  }

  /** The observations so far are of the first payload names, in order, and perhaps of the manifest. */
  ghost predicate Observed(files: seq<Snapshot>, manifest: Option<Snapshot>, root: Directory, l: Layout) {
    && |files| <= |l.payloads|
    && (forall i :: 0 <= i < |files| ==> Observes(files[i], root, l.payloads[i]))
    && (manifest.Some? ==> Observes(manifest.value, root, l.manifest))
  }

  ghost predicate AllHeld(fs: FsState, files: seq<Snapshot>) {
    forall i :: 0 <= i < |files| ==> Held(fs, files[i])
  }

  /** The directory holds exactly the payload names and the manifest, each with the observed node and bytes. */
  ghost predicate Complete(fs: FsState, root: Directory, files: seq<Snapshot>, manifest: Option<Snapshot>, l: Layout) {
    && Observed(files, manifest, root, l) && |files| == |l.payloads| && manifest.Some?
    && DirVerified(fs, root)
    && Entries(fs, root).Keys == NameSet(AllNames(l))
    && AllHeld(fs, files) && Held(fs, manifest.value)
  }

  function VerifyAll(fs: FsState, files: seq<Snapshot>): Result<(), CustodyError> {
    if files == [] then Ok(())
    else
      var _ :- VerifySnapshot(fs, files[0]);
      VerifyAll(fs, files[1..])
  }

  /** `OutputObservations::verify`. */
  function VerifyObservations(fs: FsState, files: seq<Snapshot>, manifest: Option<Snapshot>, root: Directory,
                              complete: bool, l: Layout): Result<(), CustodyError> {
    var _ :- VerifyAll(fs, files);
    var _ :- if manifest.Some? then VerifySnapshot(fs, manifest.value) else Ok(());
    var _ :- if complete
             then
               var _ :- Ensure(|files| == |l.payloads| && manifest.Some?, Cardinality);
               RequireNames(fs, root, AllNames(l))
             else Ok(());
    VerifyDir(fs, root)
  }

  lemma {:induction false} VerifyAllIffHeld(fs: FsState, files: seq<Snapshot>)
    requires forall i :: 0 <= i < |files| ==> files[i].signature.length == |files[i].bytes| > 0
    ensures VerifyAll(fs, files).Ok? <==> AllHeld(fs, files)
  {
    if files != [] {
      VerifiedIffHeld(fs, files[0]);
      VerifyAllIffHeld(fs, files[1..]);
      assert AllHeld(fs, files) <==> Held(fs, files[0]) && AllHeld(fs, files[1..]) by {
        assert forall i :: 1 <= i < |files| ==> files[i] == files[1..][i - 1];
      }
    }
  }

  /** The observation check is exact: it passes if and only if everything observed is still there, and, when
      completeness is asked for, nothing else is. */
  lemma ObservationsVerifiedIff(fs: FsState, files: seq<Snapshot>, manifest: Option<Snapshot>, root: Directory,
                                complete: bool, l: Layout)
    requires Observed(files, manifest, root, l)
    ensures VerifyObservations(fs, files, manifest, root, complete, l).Ok? <==>
              && AllHeld(fs, files) && (manifest.Some? ==> Held(fs, manifest.value)) && DirVerified(fs, root)
              && (complete ==> Complete(fs, root, files, manifest, l))
  {
    VerifyAllIffHeld(fs, files);
    if manifest.Some? { VerifiedIffHeld(fs, manifest.value); }
  }

  /** Two complete observations that are held in one state are the same. */
  lemma CompleteTogether(fs: FsState, root: Directory, files: seq<Snapshot>, manifest: Option<Snapshot>,
                         files': seq<Snapshot>, manifest': Option<Snapshot>, l: Layout)
    requires Complete(fs, root, files, manifest, l) && Complete(fs, root, files', manifest', l)
    ensures files == files' && manifest == manifest'
  {
    forall i | 0 <= i < |files| ensures files[i] == files'[i] {
      HeldTogether(fs, files[i], files'[i]);
    }
    HeldTogether(fs, manifest.value, manifest'.value);
  }

  // ---------- The shape of a run ----------

  datatype Label = LCreate(name: Name) | LReplay | LConserve | LProve

  function LabelOf<C>(e: Event<C>): Label {
    match e
    case Created(name, _, _, _) => LCreate(name)
    case Replayed(_, _, _, _) => LReplay
    case Conserved(_, _, _) => LConserve
    case Proved(_, _, _) => LProve
  }

  function Labels<C>(events: seq<Event<C>>): (s: seq<Label>)
    ensures |s| == |events|
  {
    seq(|events|, i requires 0 <= i < |events| => LabelOf(events[i]))
  }

  /** Creating the payloads in order, replaying, conserving, creating the manifest, and replaying again. */
  function Protocol(l: Layout): (s: seq<Label>)
    ensures |s| == |l.payloads| + 4
  {
    seq(|l.payloads|, i requires 0 <= i < |l.payloads| => LCreate(l.payloads[i]))
    + [LReplay, LConserve, LCreate(l.manifest), LReplay]
  }

  ghost predicate InitialPart<C>(events: seq<Event<C>>, l: Layout) {
    && |events| <= |Protocol(l)|
    && forall i :: 0 <= i < |events| ==> LabelOf(events[i]) == Protocol(l)[i]
  }

  /** A run up to its last conserve: an initial part of the protocol, and after the manifest's creation
      perhaps one more conserve. */
  ghost predicate BodyRun<C>(events: seq<Event<C>>, inner: bool, l: Layout) {
    if inner
    then |events| > |l.payloads| + 3 && InitialPart(events[..|events| - 1], l) && events[|events| - 1].Conserved?
    else InitialPart(events, l)
  }

  /** A whole run of `publish_retained` past its entry check. */
  ghost predicate PublishRun<C>(events: seq<Event<C>>, l: Layout) {
    && events != [] && events[|events| - 1].Conserved?
    && (BodyRun(events[..|events| - 1], true, l) || BodyRun(events[..|events| - 1], false, l))
  }

  /** Whenever the manifest was created, all payloads had been created before it, the replay had received
      exactly the supplied bytes and answered with the expected checkpoint, and one conserve had succeeded. */
  ghost predicate ManifestLast<C>(events: seq<Event<C>>, l: Layout, payloads: seq<seq<uint8>>, expected: C) {
    var n := |l.payloads|;
    |events| > n + 2 && events[n + 2].Created? ==>
      && events[n].Replayed? && events[n].payloads == payloads && events[n].result == Some(expected)
      && events[n + 1].Conserved? && events[n + 1].ok
  }

  /** The state changes from `from` to `to` are the events, and every creation among them is create-only. */
  ghost predicate Course<C>(events: seq<Event<C>>, root: Directory, from: FsState, to: FsState) {
    Chained(events, from, to) && OwnSteps(events, root)
  }

  lemma CourseAppend<C>(a: seq<Event<C>>, b: seq<Event<C>>, root: Directory, from: FsState, mid: FsState, to: FsState)
    requires Course(a, root, from, mid) && Course(b, root, mid, to)
    ensures Course(a + b, root, from, to)
  {
    ChainedAppend(a, b, from, mid, to);
  }

  lemma CourseCallback<C>(e: Event<C>, root: Directory)
    requires !e.Created?
    ensures Course([e], root, e.before, e.after)
  {
    ChainedOne(e);
  }

  lemma PartExtends<C>(a: seq<Event<C>>, e: Event<C>, l: Layout)
    requires InitialPart(a, l) && |a| < |Protocol(l)| && LabelOf(e) == Protocol(l)[|a|]
    ensures InitialPart(a + [e], l)
  {
  }

  /** The names created in a run, in order. */
  function CreatedNames<C>(events: seq<Event<C>>): seq<Name> {
    if events == [] then []
    else
      var (front, last) := (CreatedNames(events[..|events| - 1]), events[|events| - 1]);
      if last.Created? then front + [last.name] else front
  }

  lemma {:induction false} CreatedInOrder<C>(events: seq<Event<C>>, l: Layout)
    requires InitialPart(events, l)
    ensures CreatedNames(events) == if |events| <= |l.payloads| then l.payloads[..|events|]
                                    else if |events| <= |l.payloads| + 2 then l.payloads
                                    else AllNames(l)
  {
    var n := |events|;
    if n > 0 {
      CreatedInOrder(events[..n - 1], l);
      assert LabelOf(events[n - 1]) == Protocol(l)[n - 1];
      if n <= |l.payloads| {
        assert l.payloads[..n] == l.payloads[..n - 1] + [l.payloads[n - 1]];
      } else {
        assert l.payloads[..|l.payloads|] == l.payloads;
      }
    }
  }

  /** In every run of `publish_retained` past its entry check, successful or not, names appear only as a prefix
      of the payload list followed by the manifest, and every replay is followed by a conserve. */
  lemma RunsCreateInOrder<C>(events: seq<Event<C>>, l: Layout)
    requires PublishRun(events, l)
    ensures CreatedNames(events) <= AllNames(l)
    ensures forall i :: 0 <= i < |events| && events[i].Replayed? ==>
              exists j :: i < j < |events| && events[j].Conserved?
  {
    var body := events[..|events| - 1];
    if BodyRun(body, false, l) {
      CreatedInOrder(body, l);
    } else {
      CreatedInOrder(body[..|body| - 1], l);
    }
    forall i | 0 <= i < |events| && events[i].Replayed? ensures exists j :: i < j < |events| && events[j].Conserved? {
      assert i < |events| - 1 && events[|events| - 1].Conserved?;
    }
  }

  /** The code's own steps only add: over any stretch of a run without callbacks, no entry is changed or removed,
      no file is touched, and everything held stays held. */
  lemma {:induction false} OwnStepsOnlyAdd<C>(events: seq<Event<C>>, root: Directory, from: FsState, to: FsState,
                                              s: Snapshot)
    requires Course(events, root, from, to) && forall i :: 0 <= i < |events| ==> events[i].Created?
    ensures forall n :: n in Entries(from, root) ==>
              n in Entries(to, root) && Entries(to, root)[n] == Entries(from, root)[n]
    ensures forall k :: k in from.files ==> k in to.files && to.files[k] == from.files[k]
    ensures Held(from, s) ==> Held(to, s)
    decreases |events|
  {
    if events != [] {
      var last := events[|events| - 1];
      OwnStepsOnlyAdd(events[..|events| - 1], root, from, last.before, s);
      assert OwnCreation(last.before, to, root, last.name, last.node);
      forall k | k in last.before.files ensures k in to.files && to.files[k] == last.before.files[k] {
        assert k in (to.files - {last.node}) && (to.files - {last.node})[k] == to.files[k];
      }
      if Held(last.before, s) { CreationKeeps(last.before, to, root, last.name, last.node, s); }
    }
  }

  /** The observation is of the file that this very event created, as the creation left it. */
  ghost predicate CreationOf<C>(e: Event<C>, s: Snapshot) {
    e.Created? && e.name == s.name && e.node == s.node && Held(e.after, s)
  }

  /** Every observation is of the run's own creation of its name. */
  ghost predicate FromCreations<C>(events: seq<Event<C>>, files: seq<Snapshot>, manifest: Option<Snapshot>, l: Layout) {
    && |files| <= |events| && (forall i :: 0 <= i < |files| ==> CreationOf(events[i], files[i]))
    && (manifest.Some? ==> |events| > |l.payloads| + 2 && CreationOf(events[|l.payloads| + 2], manifest.value))
  }

  lemma FromCreationsExtend<C>(a: seq<Event<C>>, b: seq<Event<C>>, files: seq<Snapshot>, manifest: Option<Snapshot>,
                               l: Layout)
    requires FromCreations(a, files, manifest, l)
    ensures FromCreations(a + b, files, manifest, l)
  {
    assert forall i :: 0 <= i < |a| ==> (a + b)[i] == a[i];
  }

  // ---------- Publication ----------

  /** In a benign environment a whole run keeps what was held when it began. */
  lemma {:induction false} BenignRunKeeps<C(!new)>(env: Environment<C>, expected: C, history: seq<Event<C>>,
                                                   events: seq<Event<C>>, root: Directory, from: FsState, to: FsState,
                                                   s: Snapshot)
    requires Benign(env, expected) && Faithful(env, history + events) && Course(events, root, from, to) && Held(from, s)
    ensures Held(to, s)
    decreases |events|
  {
    if events != [] {
      var (front, last) := (events[..|events| - 1], events[|events| - 1]);
      assert (history + events)[..|history + events| - 1] == history + front;
      BenignRunKeeps(env, expected, history, front, root, from, last.before, s);
      if last.Created? {
        CreationKeeps(last.before, to, root, last.name, last.node, s);
      } else {
        FaithfulLater(env, history, events, |front|);
        BenignCallback(env, expected, (history + events)[..|history| + |front|], last);
      }
    }
  }

  function Nodes(files: seq<Snapshot>): set<Node> {
    if files == [] then {} else Nodes(files[..|files| - 1]) + {files[|files| - 1].node}
  }

  lemma {:induction false} HeldNodesAreFiles(fs: FsState, files: seq<Snapshot>)
    requires AllHeld(fs, files)
    ensures Nodes(files) <= fs.files.Keys
  {
    if files != [] {
      assert Held(fs, files[|files| - 1]);
      assert AllHeld(fs, files[..|files| - 1]);
      HeldNodesAreFiles(fs, files[..|files| - 1]);
    }
  }

  ghost predicate EmptyDirectory(fs: FsState, root: Directory) {
    DirVerified(fs, root) && Entries(fs, root) == map[]
  }

  ghost predicate NoneEmpty(payloads: seq<seq<uint8>>) {
    forall i :: 0 <= i < |payloads| ==> payloads[i] != []
  }

  function NamesOf(files: seq<Snapshot>): set<Name> {
    if files == [] then {} else NamesOf(files[..|files| - 1]) + {files[|files| - 1].name}
  }

  /** The directory holds just what was created, each file with a node of its own. */
  ghost predicate JustCreated(fs: FsState, root: Directory, made: seq<Snapshot>) {
    && DirVerified(fs, root) && Entries(fs, root).Keys == NamesOf(made)
    && AllHeld(fs, made) && |Nodes(made)| == |made|
  }

  lemma CreationExtends(before: FsState, after: FsState, root: Directory, made: seq<Snapshot>, file: Snapshot)
    requires JustCreated(before, root, made)
    requires OwnCreation(before, after, root, file.name, file.node) && Held(after, file)
    ensures JustCreated(after, root, made + [file])
  {
    CreationKeepsAll(before, after, root, made, file);
    HeldNodesAreFiles(before, made);
    assert (made + [file])[..|made|] == made;
  }

  lemma CreationKeepsAll(before: FsState, after: FsState, root: Directory, made: seq<Snapshot>, file: Snapshot)
    requires AllHeld(before, made) && OwnCreation(before, after, root, file.name, file.node) && Held(after, file)
    ensures AllHeld(after, made + [file])
  {
    forall i | 0 <= i < |made| ensures Held(after, made[i]) {
      CreationKeeps(before, after, root, file.name, file.node, made[i]);
    }
  }

  lemma {:induction false} NamesOfObserved(made: seq<Snapshot>, root: Directory, l: Layout)
    requires Observed(made, None, root, l)
    ensures NamesOf(made) == NameSet(l.payloads[..|made|])
  {
    var n := |made|;
    if n > 0 {
      NamesOfObserved(made[..n - 1], root, l);
      assert l.payloads[..n] == l.payloads[..n - 1] + [l.payloads[n - 1]];
    }
  }

  /** The creation of the payloads so far: the run `ev` and what each of its creations observed. */
  ghost predicate Writing<C>(ev: seq<Event<C>>, made: seq<Snapshot>, payloads: seq<seq<uint8>>, from: FsState,
                             fs: FsState, root: Directory, l: Layout)
    decreases |made|
  {
    var n := |made|;
    && |ev| == n <= |l.payloads| == |payloads|
    && if n == 0 then fs == from && EmptyDirectory(fs, root)
       else
         var (last, file) := (ev[n - 1], made[n - 1]);
         && last.Created? && last.name == l.payloads[n - 1] && last.node == file.node && last.after == fs
         && OwnCreation(last.before, fs, root, last.name, last.node) && Held(fs, file)
         && Observes(file, root, last.name) && file.bytes == payloads[n - 1]
         && Writing(ev[..n - 1], made[..n - 1], payloads, from, last.before, root, l)
  }

  lemma {:induction false} WritingCourse<C>(ev: seq<Event<C>>, made: seq<Snapshot>, payloads: seq<seq<uint8>>,
                                            from: FsState, fs: FsState, root: Directory, l: Layout)
    requires Writing(ev, made, payloads, from, fs, root, l)
    ensures InitialPart(ev, l) && Course(ev, root, from, fs)
    decreases |made|
  {
    var n := |made|;
    if n > 0 {
      var last := ev[n - 1];
      WritingCourse(ev[..n - 1], made[..n - 1], payloads, from, last.before, root, l);
      PartExtends(ev[..n - 1], last, l);
      ChainedOne(last);
      CourseAppend(ev[..n - 1], [last], root, from, last.before, fs);
      assert ev[..n - 1] + [last] == ev;
    }
  }

  lemma {:induction false} WritingObserved<C>(ev: seq<Event<C>>, made: seq<Snapshot>, payloads: seq<seq<uint8>>,
                                              from: FsState, fs: FsState, root: Directory, l: Layout)
    requires Writing(ev, made, payloads, from, fs, root, l)
    ensures Observed(made, None, root, l) && BytesOf(made) == payloads[..|made|]
    decreases |made|
  {
    var n := |made|;
    if n > 0 {
      WritingObserved(ev[..n - 1], made[..n - 1], payloads, from, ev[n - 1].before, root, l);
      assert forall i :: 0 <= i < n - 1 ==> made[i] == made[..n - 1][i] && BytesOf(made[..n - 1])[i] == made[i].bytes;
    }
  }

  lemma {:induction false} WritingHeld<C>(ev: seq<Event<C>>, made: seq<Snapshot>, payloads: seq<seq<uint8>>,
                                          from: FsState, fs: FsState, root: Directory, l: Layout)
    requires Writing(ev, made, payloads, from, fs, root, l)
    ensures JustCreated(fs, root, made)
    decreases |made|
  {
    var n := |made|;
    if n > 0 {
      WritingHeld(ev[..n - 1], made[..n - 1], payloads, from, ev[n - 1].before, root, l);
      CreationExtends(ev[n - 1].before, fs, root, made[..n - 1], made[n - 1]);
      assert made[..n - 1] + [made[n - 1]] == made;
    }
  }

  lemma {:induction false} WritingCreations<C>(ev: seq<Event<C>>, made: seq<Snapshot>, payloads: seq<seq<uint8>>,
                                               from: FsState, fs: FsState, root: Directory, l: Layout)
    requires Writing(ev, made, payloads, from, fs, root, l)
    ensures FromCreations(ev, made, None, l)
    decreases |made|
  {
    var n := |made|;
    if n > 0 {
      WritingCreations(ev[..n - 1], made[..n - 1], payloads, from, ev[n - 1].before, root, l);
      assert forall i :: 0 <= i < n - 1 ==> ev[i] == ev[..n - 1][i] && made[i] == made[..n - 1][i];
    }
  }

  lemma WritingNextFree<C>(ev: seq<Event<C>>, made: seq<Snapshot>, payloads: seq<seq<uint8>>, from: FsState,
                           fs: FsState, root: Directory, l: Layout)
    requires WellFormedLayout(l) && Writing(ev, made, payloads, from, fs, root, l) && |made| < |l.payloads|
    ensures DirVerified(fs, root) && l.payloads[|made|] !in Entries(fs, root) && Observed(made, None, root, l)
  {
    WritingHeld(ev, made, payloads, from, fs, root, l);
    WritingObserved(ev, made, payloads, from, fs, root, l);
    NamesOfObserved(made, root, l);
    assert l.payloads[|made|] !in l.payloads[..|made|];
  }

  lemma WritingDone<C>(ev: seq<Event<C>>, made: seq<Snapshot>, payloads: seq<seq<uint8>>, from: FsState,
                       fs: FsState, root: Directory, l: Layout)
    requires Writing(ev, made, payloads, from, fs, root, l) && |made| == |l.payloads|
    ensures |ev| == |made| && InitialPart(ev, l) && Course(ev, root, from, fs)
    ensures Observed(made, None, root, l) && BytesOf(made) == payloads && JustCreated(fs, root, made)
    ensures FromCreations(ev, made, None, l)
  {
    WritingCreations(ev, made, payloads, from, fs, root, l);
    WritingCourse(ev, made, payloads, from, fs, root, l);
    WritingObserved(ev, made, payloads, from, fs, root, l);
    WritingHeld(ev, made, payloads, from, fs, root, l);
  }

  lemma WritingExtends<C>(ev: seq<Event<C>>, made: seq<Snapshot>, payloads: seq<seq<uint8>>, from: FsState,
                          root: Directory, l: Layout, e: Event<C>, file: Snapshot)
    requires |made| < |l.payloads| && e.Created? && Writing(ev, made, payloads, from, e.before, root, l)
    requires e.name == l.payloads[|made|] && e.node == file.node && OwnCreation(e.before, e.after, root, e.name, e.node)
    requires Held(e.after, file) && Observes(file, root, e.name) && file.bytes == payloads[|made|]
    ensures Writing(ev + [e], made + [file], payloads, from, e.after, root, l)
  {
    assert (ev + [e])[..|ev|] == ev && (made + [file])[..|made|] == made;
  }

  /** Adding at most one event, the next of the protocol after `before + ev`. */
  lemma RunExtends<C>(ev: seq<Event<C>>, one: seq<Event<C>>, root: Directory, from: FsState, mid: FsState, to: FsState,
                      before: seq<Event<C>>, l: Layout)
    requires InitialPart(before + ev, l) && Course(ev, root, from, mid) && Course(one, root, mid, to)
    requires |one| <= 1
    requires one != [] ==> |before + ev| < |Protocol(l)| && LabelOf(one[0]) == Protocol(l)[|before + ev|]
    ensures InitialPart(before + (ev + one), l) && Course(ev + one, root, from, to)
  {
    CourseAppend(ev, one, root, from, mid, to);
    if one != [] {
      PartExtends(before + ev, one[0], l);
      assert before + (ev + one) == before + ev + [one[0]];
    } else {
      assert ev + one == ev;
    }
  }

  /** A run that stops while creating the payloads. */
  ghost predicate Stopped<C>(ev: seq<Event<C>>, made: seq<Snapshot>, from: FsState, fs: FsState, root: Directory,
                             l: Layout) {
    && |ev| <= |l.payloads| && InitialPart(ev, l) && Course(ev, root, from, fs) && Observed(made, None, root, l)
    && FromCreations(ev, made, None, l)
  }

  lemma WritingStops<C>(ev: seq<Event<C>>, one: seq<Event<C>>, made: seq<Snapshot>, payloads: seq<seq<uint8>>,
                        from: FsState, mid: FsState, to: FsState, root: Directory, l: Layout)
    requires Writing(ev, made, payloads, from, mid, root, l) && |ev| < |l.payloads| && Course(one, root, mid, to)
    requires |one| <= 1 && (one != [] ==> one[0].Created? && one[0].name == l.payloads[|ev|])
    ensures Stopped(ev + one, made, from, to, root, l)
  {
    WritingCourse(ev, made, payloads, from, mid, root, l);
    WritingObserved(ev, made, payloads, from, mid, root, l);
    WritingCreations(ev, made, payloads, from, mid, root, l);
    FromCreationsExtend(ev, one, made, None, l);
    assert [] + ev == ev && [] + (ev + one) == ev + one;
    RunExtends(ev, one, root, from, mid, to, [], l);
  }

  /** Creates the next payload. */
  method WriteNext<C(!new)>(w: World<C>, root: Directory, l: Layout, bytes: seq<uint8>, name: Name, ghost from: FsState,
                            ghost ev: seq<Event<C>>, ghost made: seq<Snapshot>, ghost payloads: seq<seq<uint8>>)
    returns (r: Result<Snapshot, CustodyError>, ghost one: seq<Event<C>>)
    requires WellFormedLayout(l) && Writing(ev, made, payloads, from, w.fs, root, l)
    requires |ev| < |l.payloads| && name == l.payloads[|ev|] && bytes == payloads[|ev|]
    requires w.Valid()
    modifies w
    ensures w.Valid()
    ensures w.trace == old(w.trace) + one
    ensures r.Err? ==> Stopped(ev + one, made, from, w.fs, root, l)
    ensures r.Ok? ==> |one| == 1 && Writing(ev + one, made + [r.value], payloads, from, w.fs, root, l)
    ensures r.Ok? <==> bytes != [] && w.env.fault(old(w.trace)) == NoFault
  {
    WritingNextFree(ev, made, payloads, from, w.fs, root, l);
    r, one := w.WriteNew(root, name, bytes);
    if r.Ok? {
      WritingExtends(ev, made, payloads, from, root, l, one[0], r.value);
      assert one == [one[0]];
    } else {
      WritingStops(ev, one, made, payloads, from, old(w.fs), w.fs, root, l);
    }
  }

  /** The creating loop. */
  method WriteEach<C(!new)>(w: World<C>, root: Directory, first: OutputObservations, l: Layout,
                            payloads: seq<seq<uint8>>)
    returns (r: Result<(), CustodyError>, ghost ev: seq<Event<C>>)
    requires WellFormedLayout(l) && |payloads| == |l.payloads|
    requires first.files == [] && EmptyDirectory(w.fs, root)
    requires w.Valid()
    modifies w, first`files
    ensures w.Valid()
    ensures w.trace == old(w.trace) + ev
    ensures r.Err? ==> Stopped(ev, first.files, old(w.fs), w.fs, root, l)
    ensures r.Ok? ==> |ev| == |l.payloads| && Writing(ev, first.files, payloads, old(w.fs), w.fs, root, l)
    ensures Reliable(w.env) && NoneEmpty(payloads) ==> r.Ok?
  {
    ev := [];
    for i := 0 to |payloads|
      invariant w.Valid() && w.trace == old(w.trace) + ev && |ev| == i
      invariant Writing(ev, first.files, payloads, old(w.fs), w.fs, root, l)
    {
      var written, one := WriteNext(w, root, l, payloads[i], l.payloads[i], old(w.fs), ev, first.files, payloads);
      Joined(old(w.trace), ev, one);
      ev := ev + one;
      if written.Err? {
        return Err(written.error), ev;
      }
      first.files := first.files + [written.value];
    }
    return Ok(()), ev;
  }

  /** Creates the payloads in order, retaining what each creation observed. */
  method WritePayloads<C(!new)>(w: World<C>, root: Directory, first: OutputObservations, l: Layout,
                                payloads: seq<seq<uint8>>)
    returns (r: Result<(), CustodyError>, ghost ev: seq<Event<C>>)
    requires WellFormedLayout(l) && |payloads| == |l.payloads|
    requires first.files == [] && EmptyDirectory(w.fs, root)
    requires w.Valid()
    modifies w, first`files
    ensures w.Valid()
    ensures w.trace == old(w.trace) + ev && Course(ev, root, old(w.fs), w.fs) && InitialPart(ev, l)
    ensures |ev| <= |l.payloads| && Observed(first.files, None, root, l) && FromCreations(ev, first.files, None, l)
    ensures r.Ok? ==>
              |ev| == |l.payloads| && BytesOf(first.files) == payloads && JustCreated(w.fs, root, first.files)
    ensures Reliable(w.env) && NoneEmpty(payloads) ==> r.Ok?
  {
    r, ev := WriteEach(w, root, first, l, payloads);
    if r.Ok? { WritingDone(ev, first.files, payloads, old(w.fs), w.fs, root, l); }
  }

  /** The conserve a caller hands to `verify_published_retained`: plain, or preceded by a check of the
      creation observations. */
  method GuardedConserve<C(!new)>(w: World<C>, root: Directory, guard: Option<OutputObservations>, l: Layout)
    returns (r: Result<(), CustodyError>, ghost ev: seq<Event<C>>)
    requires guard.Some? ==> Observed(guard.value.files, guard.value.manifest, root, l)
    requires w.Valid()
    modifies w
    ensures w.Valid()
    ensures w.trace == old(w.trace) + ev && Course(ev, root, old(w.fs), w.fs)
    ensures |ev| <= 1 && (ev != [] ==> ev[0].Conserved?)
    ensures ev != [] ==> ev[0].before == old(w.fs) && (ev[0].ok, w.fs) == w.env.conserve(old(w.trace), old(w.fs))
    ensures ev != [] <==> (guard.Some? ==> Complete(old(w.fs), root, guard.value.files, guard.value.manifest, l))
    ensures r.Ok? <==> ev != [] && ev[0].ok
  {
    ev := [];
    if guard.Some? {
      ObservationsVerifiedIff(w.fs, guard.value.files, guard.value.manifest, root, true, l);
      var checked := VerifyObservations(w.fs, guard.value.files, guard.value.manifest, root, true, l);
      if checked.Err? {
        return checked, ev;
      }
    }
    var ok, one := w.Conserve();
    CourseCallback(one[0], root);
    return if ok then Ok(()) else Err(ConserveFailed), one;
  }

  /** What reading the first `n` payloads by name would observe now. */
  function Reads(fs: FsState, root: Directory, l: Layout, n: nat): (r: Result<seq<Snapshot>, CustodyError>)
    requires n <= |l.payloads| == |l.limits|
    ensures r.Ok? ==> |r.value| == n
  {
    if n == 0 then Ok([])
    else
      var files :- Reads(fs, root, l, n - 1);
      var file :- ReadAt(fs, root, l.payloads[n - 1], l.limits[n - 1]);
      Ok(files + [file])
  }

  lemma {:induction false} ReadsPrefix(fs: FsState, root: Directory, l: Layout, n: nat, m: nat)
    requires n <= m <= |l.payloads| == |l.limits| && Reads(fs, root, l, m).Ok?
    ensures Reads(fs, root, l, n).Ok?
  {
    if n < m { ReadsPrefix(fs, root, l, n, m - 1); }
  }

  /** The directory holds exactly the names, each a readable file of its own, and a manifest that decodes. */
  ghost predicate Publishable<C>(fs: FsState, root: Directory, l: Layout, codec: Codec<C>)
    requires |l.payloads| == |l.limits|
  {
    var files := Reads(fs, root, l, |l.payloads|);
    var manifest := ReadAt(fs, root, l.manifest, l.manifestMax);
    && RequireNames(fs, root, AllNames(l)).Ok? && files.Ok? && manifest.Ok? && codec.Decode(manifest.value.bytes).Some?
    && |Nodes(files.value + [manifest.value])| == |l.payloads| + 1
  }

  /** Reads the payloads by name, retaining each as it is read. */
  method ReadPayloads(fs: FsState, root: Directory, first: OutputObservations, l: Layout)
    returns (r: Result<(), CustodyError>)
    requires WellFormedLayout(l) && first.files == []
    modifies first`files
    ensures Observed(first.files, None, root, l)
    ensures r.Ok? ==> AllHeld(fs, first.files) && Reads(fs, root, l, |l.payloads|) == Ok(first.files)
    ensures r.Err? ==> Reads(fs, root, l, |l.payloads|).Err?
  {
    for i := 0 to |l.payloads|
      invariant |first.files| == i && Observed(first.files, None, root, l) && AllHeld(fs, first.files)
      invariant Reads(fs, root, l, i) == Ok(first.files)
    {
      if Reads(fs, root, l, |l.payloads|).Ok? { ReadsPrefix(fs, root, l, i + 1, |l.payloads|); }
      var file :- ReadAt(fs, root, l.payloads[i], l.limits[i]);
      ReadIsHeld(fs, root, l.payloads[i], l.limits[i]);
      first.files := first.files + [file];
    }
    return Ok(());
  }

  /** Reads the manifest and the payloads, whose nodes must all differ. */
  method ReadPublished<C(!new)>(w: World<C>, root: Directory, first: OutputObservations, l: Layout, codec: Codec<C>)
    returns (r: Result<C, CustodyError>)
    requires WellFormedLayout(l) && first.files == [] && first.manifest == None
    modifies first
    ensures Observed(first.files, first.manifest, root, l)
    ensures r.Ok? <==> Publishable(w.fs, root, l, codec)
    ensures r.Ok? ==>
              && Complete(w.fs, root, first.files, first.manifest, l)
              && first.manifest.value == ReadAt(w.fs, root, l.manifest, l.manifestMax).value
              && codec.Decode(first.manifest.value.bytes) == Some(r.value)
  {
    var _ :- VerifyDir(w.fs, root);
    var _ :- RequireNames(w.fs, root, AllNames(l));
    var manifest :- ReadAt(w.fs, root, l.manifest, l.manifestMax);
    ReadIsHeld(w.fs, root, l.manifest, l.manifestMax);
    first.manifest := Some(manifest);
    var expected := codec.Decode(manifest.bytes);
    if expected.None? {
      return Err(ManifestInvalid);
    }
    var _ :- ReadPayloads(w.fs, root, first, l);
    if |Nodes(first.files + [manifest])| != |l.payloads| + 1 {
      return Err(DuplicateIdentity);
    }
    return Ok(expected.value);
  }

  /** The closure of `verify_published_retained`: read, replay, and check that all of it is still there. It
      succeeds exactly when the directory is publishable at entry, the replay gives the manifest's checkpoint,
      and everything read is still there after the replay. */
  method VerifyBody<C(==,!new)>(w: World<C>, root: Directory, first: OutputObservations, l: Layout, codec: Codec<C>)
    returns (r: Result<(), CustodyError>, ghost ev: seq<Event<C>>)
    requires WellFormedLayout(l) && first.files == [] && first.manifest == None
    requires w.Valid()
    modifies w, first
    ensures w.Valid()
    ensures w.trace == old(w.trace) + ev && Course(ev, root, old(w.fs), w.fs)
    ensures |ev| <= 1 && (ev != [] ==> ev[0].Replayed?)
    ensures Observed(first.files, first.manifest, root, l)
    ensures ev != [] <==> Publishable(old(w.fs), root, l, codec)
    ensures ev != [] ==>
              && Complete(old(w.fs), root, first.files, first.manifest, l) && ev[0].payloads == BytesOf(first.files)
              && ev[0].before == old(w.fs) && ev[0].after == w.fs
              && (ev[0].result, w.fs) == w.env.replay(old(w.trace), BytesOf(first.files), old(w.fs))
    ensures r.Ok? <==>
              && ev != [] && codec.Decode(first.manifest.value.bytes).Some?
              && ev[0].result == codec.Decode(first.manifest.value.bytes)
              && Complete(w.fs, root, first.files, first.manifest, l)
    ensures Settled(w.env, old(w.fs), root, l, codec) ==> r.Ok? && w.fs == old(w.fs)
  {
    ev := [];
    var read := ReadPublished(w, root, first, l, codec);
    if read.Err? {
      return Err(read.error), ev;
    }
    var answer, one := w.Replay(BytesOf(first.files));
    CourseCallback(one[0], root);
    ev := one;
    if answer.None? {
      return Err(ReplayFailed), ev;
    }
    if answer.value != read.value {
      return Err(ReplayDiffers), ev;
    }
    ObservationsVerifiedIff(w.fs, first.files, first.manifest, root, true, l);
    var checked := VerifyObservations(w.fs, first.files, first.manifest, root, true, l);
    if checked.Err? {
      return checked, ev;
    }
    var names := RequireNames(w.fs, root, AllNames(l));
    return names, ev;
  }

  /** A successful re-read: one replay of exactly the observed bytes, answered with the manifest's checkpoint,
      then one conserve. */
  ghost predicate Reread<C>(ev: seq<Event<C>>, files: seq<Snapshot>, manifest: Option<Snapshot>, codec: Codec<C>) {
    && |ev| == 2 && ev[0].Replayed? && ev[1].Conserved? && ev[1].ok
    && ev[0].payloads == BytesOf(files) && ev[0].result.Some?
    && manifest.Some? && ev[0].result == codec.Decode(manifest.value.bytes)
  }

  /** What a re-read may have done: a replay or not, and after it a conserve if `inner`. */
  ghost predicate RereadShape<C>(ev: seq<Event<C>>, inner: bool) {
    && |ev| <= (if inner then 2 else 1)
    && (inner ==> |ev| > 0 && ev[|ev| - 1].Conserved? && (|ev| == 2 ==> ev[0].Replayed?))
    && (!inner ==> |ev| == 1 ==> ev[0].Replayed?)
  }

  ghost predicate SameObservations(files: seq<Snapshot>, manifest: Option<Snapshot>, guard: OutputObservations)
    reads guard
  {
    files == guard.files && manifest == guard.manifest && manifest.Some?
  }

  /** The directory is publishable and nothing will go wrong: each replay will answer with its checkpoint. */
  ghost predicate Settled<C(!new)>(env: Environment<C>, fs: FsState, root: Directory, l: Layout, codec: Codec<C>)
    requires |l.payloads| == |l.limits|
  {
    && Publishable(fs, root, l, codec)
    && Benign(env, codec.Decode(ReadAt(fs, root, l.manifest, l.manifestMax).value.bytes).value)
  }

  /** How both publication routes end: the output is checked whatever happened, complete exactly when the
      result is a success, and the errors take precedence in the order conserve, output, result. */
  function Close(fs: FsState, files: seq<Snapshot>, manifest: Option<Snapshot>, root: Directory, l: Layout,
                 result: Result<(), CustodyError>, conservation: Result<(), CustodyError>)
      : (r: Result<(), CustodyError>)
    requires Observed(files, manifest, root, l)
    ensures r.Ok? <==> result.Ok? && conservation.Ok? && Complete(fs, root, files, manifest, l)
  {
    ObservationsVerifiedIff(fs, files, manifest, root, result.Ok?, l);
    var output := VerifyObservations(fs, files, manifest, root, result.Ok?, l);
    if conservation.Err? then conservation else if output.Err? then output else result
  }

  /** The closure of `verify_published_retained`, then the conserve, which runs whether or not it succeeded. */
  method VerifyThenConserve<C(==,!new)>(w: World<C>, root: Directory, first: OutputObservations, l: Layout,
                                        codec: Codec<C>, guard: Option<OutputObservations>)
    returns (r: Result<(), CustodyError>, conservation: Result<(), CustodyError>, ghost ev: seq<Event<C>>,
             ghost inner: bool)
    requires WellFormedLayout(l) && first.files == [] && first.manifest == None
    requires guard.Some? ==> guard.value != first && Observed(guard.value.files, guard.value.manifest, root, l)
    requires w.Valid()
    modifies w, first
    ensures w.Valid()
    ensures w.trace == old(w.trace) + ev && Course(ev, root, old(w.fs), w.fs)
    ensures RereadShape(ev, inner) && (guard.None? ==> inner)
    ensures Observed(first.files, first.manifest, root, l)
    ensures r.Ok? && conservation.Ok? <==>
              inner && Reread(ev, first.files, first.manifest, codec)
                  && Complete(ev[1].before, root, first.files, first.manifest, l)
    ensures r.Ok? && conservation.Ok? ==>
              && Complete(old(w.fs), root, first.files, first.manifest, l) && ev[0].before == old(w.fs)
              && Publishable(old(w.fs), root, l, codec)
    ensures r.Ok? && conservation.Ok? && guard.Some? ==> SameObservations(first.files, first.manifest, guard.value)
    ensures Settled(w.env, old(w.fs), root, l, codec)
            && (guard.Some? ==> Complete(old(w.fs), root, guard.value.files, guard.value.manifest, l)) ==>
              r.Ok? && conservation.Ok? && w.fs == old(w.fs) && Complete(w.fs, root, first.files, first.manifest, l)
  {
    ghost var start := w.fs;
    ghost var body, last;
    r, body := VerifyBody(w, root, first, l, codec);
    ghost var mid := w.fs;
    conservation, last := GuardedConserve(w, root, guard, l);
    CourseAppend(body, last, root, start, mid, w.fs);
    Joined(old(w.trace), body, last);
    ev, inner := body + last, last != [];
    if r.Ok? && conservation.Ok? && guard.Some? {
      CompleteTogether(mid, root, first.files, first.manifest, guard.value.files, guard.value.manifest, l);
    }
  }

  /** `verify_published_retained` past its entry check. */
  method VerifyAcquired<C(==,!new)>(w: World<C>, root: Directory, first: OutputObservations, l: Layout, codec: Codec<C>,
                                    guard: Option<OutputObservations>)
    returns (r: Result<(), CustodyError>, ghost ev: seq<Event<C>>, ghost inner: bool)
    requires WellFormedLayout(l) && first.files == [] && first.manifest == None
    requires guard.Some? ==> guard.value != first && Observed(guard.value.files, guard.value.manifest, root, l)
    requires w.Valid()
    modifies w, first
    ensures w.Valid()
    ensures w.trace == old(w.trace) + ev && Course(ev, root, old(w.fs), w.fs)
    ensures RereadShape(ev, inner) && (guard.None? ==> inner)
    ensures Observed(first.files, first.manifest, root, l)
    ensures r.Ok? <==>
              && inner && Reread(ev, first.files, first.manifest, codec)
              && Complete(ev[1].before, root, first.files, first.manifest, l)
              && Complete(w.fs, root, first.files, first.manifest, l)
    ensures r.Ok? ==>
              && Complete(old(w.fs), root, first.files, first.manifest, l) && ev[0].before == old(w.fs)
              && Publishable(old(w.fs), root, l, codec)
    ensures r.Ok? && guard.Some? ==> SameObservations(first.files, first.manifest, guard.value)
    ensures Settled(w.env, old(w.fs), root, l, codec)
            && (guard.Some? ==> Complete(old(w.fs), root, guard.value.files, guard.value.manifest, l)) ==>
              r.Ok? && w.fs == old(w.fs)
  {
    var result, conservation;
    result, conservation, ev, inner := VerifyThenConserve(w, root, first, l, codec, guard);
    r := Close(w.fs, first.files, first.manifest, root, l, result, conservation);
  }

  /** `verify_published_retained`. The conserve runs whether or not the body succeeded; on success the directory
      at return is, node for node and byte for byte, the one found at entry, and the replay received exactly
      its bytes. */
  method VerifyPublishedRetained<C(==,!new)>(w: World<C>, root: Directory, first: OutputObservations, l: Layout,
                                             codec: Codec<C>, guard: Option<OutputObservations>)
    returns (r: Result<(), CustodyError>, ghost ev: seq<Event<C>>, ghost inner: bool)
    requires WellFormedLayout(l)
    requires guard.Some? ==> guard.value != first && Observed(guard.value.files, guard.value.manifest, root, l)
    requires w.Valid()
    modifies w, first
    ensures w.Valid()
    ensures w.trace == old(w.trace) + ev && Course(ev, root, old(w.fs), w.fs)
    ensures !old(first.files == [] && first.manifest == None) ==> r == Err(AlreadyAcquired) && ev == [] && !inner
    ensures RereadShape(ev, inner)
    ensures old(first.files == [] && first.manifest == None) ==>
              Observed(first.files, first.manifest, root, l) && (guard.None? ==> inner)
    ensures old(first.files == [] && first.manifest == None) ==> (r.Ok? <==>
              && inner && Reread(ev, first.files, first.manifest, codec)
              && Complete(ev[1].before, root, first.files, first.manifest, l)
              && Complete(w.fs, root, first.files, first.manifest, l))
    ensures r.Ok? ==>
              && Complete(old(w.fs), root, first.files, first.manifest, l) && ev[0].before == old(w.fs)
              && Publishable(old(w.fs), root, l, codec) && OwnNodes(first.files, first.manifest.value)
    ensures r.Ok? ==>
              && Stands(old(w.fs), root, l, BytesOf(first.files), first.manifest.value.bytes)
              && Stands(w.fs, root, l, BytesOf(first.files), first.manifest.value.bytes)
    ensures old(first.files == [] && first.manifest == None) && Settled(w.env, old(w.fs), root, l, codec)
            && (guard.Some? ==> Complete(old(w.fs), root, guard.value.files, guard.value.manifest, l)) ==>
              r.Ok? && w.fs == old(w.fs)
    ensures r.Ok? && guard.Some? ==> SameObservations(first.files, first.manifest, guard.value)
  {
    ev, inner := [], false;
    if !(first.files == [] && first.manifest == None) {
      CourseEmpty<C>(root, w.fs);
      return Err(AlreadyAcquired), ev, inner;
    }
    r, ev, inner := VerifyAcquired(w, root, first, l, codec, guard);
    if r.Ok? {
      PublishableNodes(old(w.fs), root, first.files, first.manifest, l, codec);
      CompleteStands(old(w.fs), root, first.files, first.manifest, l);
      CompleteStands(w.fs, root, first.files, first.manifest, l);
    }
  }

  lemma CourseEmpty<C>(root: Directory, fs: FsState)
    ensures Course<C>([], root, fs, fs)
  {
  }

  /** Payloads within their limits, and a checkpoint whose encoding is within its own and decodes back. */
  ghost predicate Suitable<C>(l: Layout, payloads: seq<seq<uint8>>, expected: C, codec: Codec<C>)
    requires |l.payloads| == |l.limits|
  {
    && |payloads| == |l.payloads| && (forall i :: 0 <= i < |payloads| ==> 0 < |payloads[i]| <= l.limits[i])
    && codec.encode(expected).Some? && 0 < |codec.encode(expected).value| <= l.manifestMax
    && codec.Decode(codec.encode(expected).value) == Some(expected)
  }

  lemma {:induction false} HeldReads(fs: FsState, root: Directory, files: seq<Snapshot>, l: Layout, n: nat)
    requires |l.payloads| == |l.limits| && n <= |files| && Observed(files, None, root, l) && AllHeld(fs, files)
    requires forall i :: 0 <= i < |files| ==> |files[i].bytes| <= l.limits[i]
    ensures Reads(fs, root, l, n) == Ok(files[..n])
  {
    if n > 0 {
      HeldReads(fs, root, files, l, n - 1);
      assert Held(fs, files[n - 1]);
      assert files[..n - 1] + [files[n - 1]] == files[..n];
    }
  }

  lemma {:induction false} ReadsAreHeld(fs: FsState, root: Directory, l: Layout, n: nat)
    requires n <= |l.payloads| == |l.limits| && Reads(fs, root, l, n).Ok?
    ensures var files := Reads(fs, root, l, n).value;
            && AllHeld(fs, files) && Observed(files, None, root, l)
            && forall i :: 0 <= i < n ==> |files[i].bytes| <= l.limits[i]
  {
    if n > 0 {
      ReadsAreHeld(fs, root, l, n - 1);
      ReadIsHeld(fs, root, l.payloads[n - 1], l.limits[n - 1]);
    }
  }

  /** What a publishable directory holds is what reading it observes. */
  lemma PublishableReads<C>(fs: FsState, root: Directory, files: seq<Snapshot>, manifest: Snapshot, l: Layout,
                            codec: Codec<C>)
    requires WellFormedLayout(l) && Publishable(fs, root, l, codec) && Complete(fs, root, files, Some(manifest), l)
    ensures Reads(fs, root, l, |l.payloads|) == Ok(files) && ReadAt(fs, root, l.manifest, l.manifestMax) == Ok(manifest)
    ensures forall i :: 0 <= i < |files| ==> |files[i].bytes| <= l.limits[i]
  {
    var again := Reads(fs, root, l, |l.payloads|).value;
    ReadsAreHeld(fs, root, l, |l.payloads|);
    ReadIsHeld(fs, root, l.manifest, l.manifestMax);
    var body := ReadAt(fs, root, l.manifest, l.manifestMax).value;
    CompleteTogether(fs, root, files, Some(manifest), again, Some(body), l);
  }

  lemma PublishableNodes<C>(fs: FsState, root: Directory, files: seq<Snapshot>, manifest: Option<Snapshot>, l: Layout,
                            codec: Codec<C>)
    requires WellFormedLayout(l) && Publishable(fs, root, l, codec) && Complete(fs, root, files, manifest, l)
    ensures OwnNodes(files, manifest.value)
  {
    PublishableReads(fs, root, files, manifest.value, l, codec);
  }

  /** Being publishable is a matter of what is held. */
  lemma PublishableAgain<C>(from: FsState, to: FsState, root: Directory, files: seq<Snapshot>, manifest: Snapshot,
                            l: Layout, codec: Codec<C>)
    requires WellFormedLayout(l) && Publishable(from, root, l, codec)
    requires Complete(from, root, files, Some(manifest), l) && Complete(to, root, files, Some(manifest), l)
    ensures Publishable(to, root, l, codec)
  {
    PublishableReads(from, root, files, manifest, l, codec);
    ReadIsHeld(from, root, l.manifest, l.manifestMax);
    CompleteReads(to, root, files, manifest, l);
  }

  lemma CompleteReads(fs: FsState, root: Directory, files: seq<Snapshot>, manifest: Snapshot, l: Layout)
    requires WellFormedLayout(l) && Complete(fs, root, files, Some(manifest), l) && |manifest.bytes| <= l.manifestMax
    requires forall i :: 0 <= i < |files| ==> |files[i].bytes| <= l.limits[i]
    ensures Reads(fs, root, l, |l.payloads|) == Ok(files) && ReadAt(fs, root, l.manifest, l.manifestMax) == Ok(manifest)
  {
    HeldReads(fs, root, files, l, |files|);
    assert files[..|files|] == files;
  }

  // ---------- The state itself ----------

  /** The directory stands under its path, holds the payload names and the manifest and nothing else, and each is a
      file of its own with a single link and exactly these bytes. */
  ghost predicate Stands(fs: FsState, root: Directory, l: Layout, payloads: seq<seq<uint8>>, manifest: seq<uint8>) {
    && root.path in fs.paths && fs.paths[root.path] == root.chain
    && (forall i :: 0 <= i < |root.chain| ==> root.chain[i] in fs.liveDirs)
    && root.chain[|root.chain| - 1] in fs.entries
    && var entries := fs.entries[root.chain[|root.chain| - 1]];
       && (forall name :: name in entries <==> name in l.payloads || name == l.manifest)
       && |payloads| == |l.payloads|
       && (forall i :: 0 <= i < |l.payloads| ==> IsFile(fs, entries[l.payloads[i]], payloads[i]))
       && IsFile(fs, entries[l.manifest], manifest)
       && (forall i, j :: 0 <= i < j < |l.payloads| ==> entries[l.payloads[i]] != entries[l.payloads[j]])
       && (forall i :: 0 <= i < |l.payloads| ==> entries[l.payloads[i]] != entries[l.manifest])
  }

  ghost predicate IsFile(fs: FsState, node: Node, bytes: seq<uint8>) {
    node in fs.files && fs.files[node].bytes == bytes && fs.files[node].links == 1
  }

  lemma HeldIsFile(fs: FsState, s: Snapshot)
    requires Held(fs, s)
    ensures var last := s.dir.chain[|s.dir.chain| - 1];
            last in fs.entries && s.name in fs.entries[last] && IsFile(fs, fs.entries[last][s.name], s.bytes)
  {
  }

  ghost predicate OwnNodes(files: seq<Snapshot>, manifest: Snapshot) {
    |Nodes(files + [manifest])| == |files| + 1
  }

  lemma NodesDiffer(files: seq<Snapshot>, manifest: Snapshot)
    ensures OwnNodes(files, manifest) <==>
              && (forall i, j :: 0 <= i < j < |files| ==> files[i].node != files[j].node)
              && (forall i :: 0 <= i < |files| ==> files[i].node != manifest.node)
  {
    var all := files + [manifest];
    NodesAreFew(all);
    if OwnNodes(files, manifest) {
      forall i, j | 0 <= i < j < |all| ensures all[i].node != all[j].node {
        DistinctNodes(all, j);
        NodeIn(all[..j], i);
      }
      assert all[|files|] == manifest && forall i :: 0 <= i < |files| ==> all[i] == files[i];
    } else {
      var i, j := SharedNode(all);
    }
  }

  lemma {:induction false} SharedNode(all: seq<Snapshot>) returns (i: nat, j: nat)
    requires |Nodes(all)| < |all|
    ensures i < j < |all| && all[i].node == all[j].node
    decreases |all|
  {
    var front := all[..|all| - 1];
    if |Nodes(front)| < |front| {
      i, j := SharedNode(front);
    } else {
      NodesAreFew(front);
      j := |all| - 1;
      i := NodeOf(front, all[j].node);
    }
  }

  lemma {:induction false} NodeOf(files: seq<Snapshot>, node: Node) returns (i: nat)
    requires node in Nodes(files)
    ensures i < |files| && files[i].node == node
    decreases |files|
  {
    if files[|files| - 1].node == node {
      i := |files| - 1;
    } else {
      i := NodeOf(files[..|files| - 1], node);
    }
  }

  lemma CompleteStands(fs: FsState, root: Directory, files: seq<Snapshot>, manifest: Option<Snapshot>, l: Layout)
    requires Complete(fs, root, files, manifest, l) && OwnNodes(files, manifest.value)
    ensures Stands(fs, root, l, BytesOf(files), manifest.value.bytes)
  {
    HeldIsFile(fs, manifest.value);
    var entries := fs.entries[root.chain[|root.chain| - 1]];
    assert entries == Entries(fs, root);
    forall name ensures name in entries <==> name in l.payloads || name == l.manifest {
      assert name in entries.Keys <==> name in NameSet(AllNames(l));
    }
    forall i | 0 <= i < |files| ensures IsFile(fs, entries[l.payloads[i]], BytesOf(files)[i]) {
      HeldIsFile(fs, files[i]);
    }
    NodesDiffer(files, manifest.value);
  }

  /** What would be observed of a file. */
  function SnapshotOf(fs: FsState, root: Directory, name: Name): Snapshot
    requires name in Entries(fs, root) && Entries(fs, root)[name] in fs.files
  {
    var node := Entries(fs, root)[name];
    Snapshot(root, name, node, SignatureOf(fs.files[node]), fs.files[node].bytes)
  }

  /** A directory stands with these bytes exactly when it is complete for some observations of them. */
  lemma StandsIffComplete(fs: FsState, root: Directory, l: Layout, payloads: seq<seq<uint8>>, manifest: seq<uint8>)
    requires manifest != [] && forall i :: 0 <= i < |payloads| ==> payloads[i] != []
    ensures Stands(fs, root, l, payloads, manifest) <==>
            exists files, made: Snapshot ::
              && Complete(fs, root, files, Some(made), l) && OwnNodes(files, made)
              && BytesOf(files) == payloads && made.bytes == manifest
  {
    forall files, made: Snapshot |
      && Complete(fs, root, files, Some(made), l) && OwnNodes(files, made)
      && BytesOf(files) == payloads && made.bytes == manifest
      ensures Stands(fs, root, l, payloads, manifest)
    {
      CompleteStands(fs, root, files, Some(made), l);
    }
    if Stands(fs, root, l, payloads, manifest) {
      var entries := Entries(fs, root);
      assert forall i :: 0 <= i < |l.payloads| ==>
               l.payloads[i] in entries && IsFile(fs, entries[l.payloads[i]], payloads[i]);
      var files := seq(|l.payloads|, i requires 0 <= i < |l.payloads| => SnapshotOf(fs, root, l.payloads[i]));
      var made := SnapshotOf(fs, root, l.manifest);
      assert entries.Keys == NameSet(AllNames(l));
      assert Complete(fs, root, files, Some(made), l);
      assert BytesOf(files) == payloads;
      NodesDiffer(files, made);
    }
  }

  lemma {:induction false} DistinctNodes(all: seq<Snapshot>, i: nat)
    requires |Nodes(all)| == |all| && i < |all|
    ensures all[i].node !in Nodes(all[..i]) && |Nodes(all[..i])| == i
    decreases |all|
  {
    var front := all[..|all| - 1];
    NodesAreFew(front);
    if i < |front| {
      DistinctNodes(front, i);
      assert all[..i] == front[..i];
    }
  }

  lemma {:induction false} NodesAreFew(files: seq<Snapshot>)
    ensures |Nodes(files)| <= |files|
  {
    if files != [] { NodesAreFew(files[..|files| - 1]); }
  }

  lemma {:induction false} NodeIn(all: seq<Snapshot>, k: nat)
    requires k < |all|
    ensures all[k].node in Nodes(all)
    decreases |all|
  {
    if k < |all| - 1 { NodeIn(all[..|all| - 1], k); }
  }

  /** A directory that holds just what was created, all of it, is complete. */
  lemma CreatedIsComplete(fs: FsState, root: Directory, files: seq<Snapshot>, manifest: Snapshot, l: Layout)
    requires |files| == |l.payloads| && Observed(files, Some(manifest), root, l)
             && JustCreated(fs, root, files + [manifest])
    ensures Complete(fs, root, files, Some(manifest), l)
  {
    var all := files + [manifest];
    assert all[..|files|] == files && all[|files|] == manifest;
    assert forall i :: 0 <= i < |files| ==> all[i] == files[i];
    NamesOfObserved(files, root, l);
    assert l.payloads[..|files|] == l.payloads;
    assert NameSet(AllNames(l)) == NameSet(l.payloads) + {l.manifest};
  }

  /** A complete directory with distinct nodes and suitable contents is publishable. */
  lemma CompleteIsPublishable<C>(fs: FsState, root: Directory, files: seq<Snapshot>, manifest: Snapshot, l: Layout,
                                 payloads: seq<seq<uint8>>, expected: C, codec: Codec<C>)
    requires WellFormedLayout(l) && Suitable(l, payloads, expected, codec)
    requires Complete(fs, root, files, Some(manifest), l) && BytesOf(files) == payloads
    requires Some(manifest.bytes) == codec.encode(expected) && |Nodes(files + [manifest])| == |files| + 1
    ensures Publishable(fs, root, l, codec) && ReadAt(fs, root, l.manifest, l.manifestMax) == Ok(manifest)
  {
    forall i | 0 <= i < |files| ensures |files[i].bytes| <= l.limits[i] {
      assert payloads[i] == files[i].bytes;
    }
    HeldReads(fs, root, files, l, |files|);
    assert files[..|files|] == files;
  }

  lemma AllPayloadNames(fs: FsState, root: Directory, files: seq<Snapshot>, l: Layout)
    requires |files| == |l.payloads| && Observed(files, None, root, l) && JustCreated(fs, root, files)
    ensures Entries(fs, root).Keys == NameSet(l.payloads)
  {
    NamesOfObserved(files, root, l);
    assert l.payloads[..|files|] == l.payloads;
  }

  /** `done` is a run in which every payload was created and then replayed as expected. */
  ghost predicate PayloadsReplayed<C>(done: seq<Event<C>>, l: Layout, payloads: seq<seq<uint8>>, expected: C) {
    && |done| > |l.payloads| && InitialPart(done, l)
    && done[|l.payloads|].Replayed? && done[|l.payloads|].payloads == payloads
    && done[|l.payloads|].result == Some(expected)
  }

  /** A run that creates anything began in an empty directory. */
  ghost predicate BeganEmpty<C>(ev: seq<Event<C>>, from: FsState, root: Directory) {
    ev != [] && ev[0].Created? ==> EmptyDirectory(from, root)
  }

  /** The first part of the closure of `publish_retained`: create, replay, and check that all is still there. */
  method PublishPayloads<C(==,!new)>(w: World<C>, root: Directory, first: OutputObservations, l: Layout,
                                     payloads: seq<seq<uint8>>, expected: C)
    returns (r: Result<(), CustodyError>, ghost ev: seq<Event<C>>)
    requires WellFormedLayout(l) && |payloads| == |l.payloads|
    requires first.files == [] && first.manifest == None
    requires w.Valid()
    modifies w, first
    ensures w.Valid()
    ensures w.trace == old(w.trace) + ev && Course(ev, root, old(w.fs), w.fs)
    ensures InitialPart(ev, l) && |ev| <= |l.payloads| + 1
    ensures Observed(first.files, None, root, l) && first.manifest == None && FromCreations(ev, first.files, None, l)
    ensures BeganEmpty(ev, old(w.fs), root)
    ensures r.Ok? ==>
              && |ev| == |l.payloads| + 1 && PayloadsReplayed(ev, l, payloads, expected)
              && BytesOf(first.files) == payloads && AllHeld(ev[|l.payloads|].after, first.files)
    ensures Benign(w.env, expected) && EmptyDirectory(old(w.fs), root) && NoneEmpty(payloads) ==>
              r.Ok? && JustCreated(w.fs, root, first.files)
  {
    ev := [];
    if VerifyDir(w.fs, root).Err? {
      return Err(DirectoryDrift), ev;
    }
    var empty := RequireNames(w.fs, root, []);
    if empty.Err? {
      return empty, ev;
    }
    ghost var start := w.fs;
    var written, creations := WritePayloads(w, root, first, l, payloads);
    ev := creations;
    if written.Err? {
      return written, ev;
    }
    AllPayloadNames(w.fs, root, first.files, l);
    var named := RequireNames(w.fs, root, l.payloads);
    if named.Err? {
      return named, ev;
    }
    ghost var mid, one := w.fs, [];
    var replayed;
    replayed, one := ReplayCreated(w, root, first, l, expected, creations);
    CourseAppend(creations, one, root, start, mid, w.fs);
    Joined(old(w.trace), creations, one);
    FromCreationsExtend(creations, one, first.files, None, l);
    ev := creations + one;
    return replayed, ev;
  }

  /** The replay of what was created, and the check that it is still there. `done` is the run so far. */
  method ReplayCreated<C(==,!new)>(w: World<C>, root: Directory, first: OutputObservations, l: Layout, expected: C,
                                   ghost done: seq<Event<C>>)
    returns (r: Result<(), CustodyError>, ghost ev: seq<Event<C>>)
    requires Observed(first.files, None, root, l) && first.manifest == None
    requires |done| == |l.payloads| && InitialPart(done, l)
    requires w.Valid()
    modifies w
    ensures w.Valid()
    ensures w.trace == old(w.trace) + ev && Course(ev, root, old(w.fs), w.fs) && |ev| == 1
    ensures InitialPart(done + ev, l)
    ensures r.Ok? ==>
              PayloadsReplayed(done + ev, l, BytesOf(first.files), expected) && AllHeld(ev[0].after, first.files)
    ensures Benign(w.env, expected) && DirVerified(old(w.fs), root) && AllHeld(old(w.fs), first.files) ==>
              r.Ok? && w.fs == old(w.fs)
  {
    var answer, one := w.Replay(BytesOf(first.files));
    CourseCallback(one[0], root);
    PartExtends(done, one[0], l);
    ev := one;
    if answer.None? {
      return Err(ReplayFailed), ev;
    }
    if answer.value != expected {
      return Err(ReplayDiffers), ev;
    }
    ObservationsVerifiedIff(w.fs, first.files, first.manifest, root, false, l);
    return VerifyObservations(w.fs, first.files, first.manifest, root, false, l), ev;
  }

  /** A directory with all the payloads and nothing else. */
  ghost predicate PayloadsCreated(fs: FsState, root: Directory, made: seq<Snapshot>, l: Layout) {
    |made| == |l.payloads| && Observed(made, None, root, l) && JustCreated(fs, root, made)
  }

  /** Creates the manifest and syncs the directory; the manifest exists even if the sync fails. */
  method CreateManifest<C(!new)>(w: World<C>, root: Directory, l: Layout, expected: C, codec: Codec<C>,
                                 ghost made: seq<Snapshot>)
    returns (manifest: Result<Snapshot, CustodyError>, synced: Result<(), CustodyError>, ghost ev: seq<Event<C>>)
    requires WellFormedLayout(l)
    requires w.Valid()
    modifies w
    ensures w.Valid()
    ensures w.trace == old(w.trace) + ev && Course(ev, root, old(w.fs), w.fs)
    ensures |ev| <= 1 && (ev != [] ==> ev[0].Created? && ev[0].name == l.manifest)
    ensures manifest.Ok? ==>
              && |ev| == 1 && Observes(manifest.value, root, l.manifest) && Held(w.fs, manifest.value)
              && CreationOf(ev[0], manifest.value) && Some(manifest.value.bytes) == codec.encode(expected)
    ensures synced.Ok? ==> w.env.fault(w.trace) == NoFault
    ensures Reliable(w.env) && PayloadsCreated(old(w.fs), root, made, l)
            && codec.encode(expected).Some? && codec.encode(expected).value != [] ==>
              manifest.Ok? && synced.Ok? && JustCreated(w.fs, root, made + [manifest.value])
  {
    synced, ev := Err(WriteFailed), [];
    if VerifyDir(w.fs, root).Err? {
      return Err(DirectoryDrift), synced, ev;
    }
    var body := codec.encode(expected);
    if body.None? {
      return Err(ManifestInvalid), synced, ev;
    }
    if PayloadsCreated(w.fs, root, made, l) { AllPayloadNames(w.fs, root, made, l); }
    manifest, ev := w.WriteNew(root, l.manifest, body.value);
    if manifest.Ok? && PayloadsCreated(old(w.fs), root, made, l) {
      CreationExtends(old(w.fs), w.fs, root, made, manifest.value);
    }
    synced := Ensure(w.env.fault(w.trace) == NoFault, WriteFailed);
  }

  /** Conserve, then create the manifest. `done` is the run so far and `made` what it created. */
  method ConserveThenCreate<C(!new)>(w: World<C>, root: Directory, l: Layout, expected: C, codec: Codec<C>,
                                     ghost done: seq<Event<C>>, ghost made: seq<Snapshot>)
    returns (manifest: Result<Snapshot, CustodyError>, synced: Result<(), CustodyError>, ghost ev: seq<Event<C>>)
    requires WellFormedLayout(l) && |done| == |l.payloads| + 1 && InitialPart(done, l)
    requires w.Valid()
    modifies w
    ensures w.Valid()
    ensures w.trace == old(w.trace) + ev && Course(ev, root, old(w.fs), w.fs)
    ensures 1 <= |ev| <= 2 && InitialPart(done + ev, l) && (|ev| == 2 ==> ev[0].Conserved? && ev[0].ok)
    ensures manifest.Ok? ==>
              && |ev| == 2 && Observes(manifest.value, root, l.manifest) && Held(w.fs, manifest.value)
              && CreationOf(ev[1], manifest.value) && Some(manifest.value.bytes) == codec.encode(expected)
    ensures synced.Ok? ==> w.env.fault(w.trace) == NoFault
    ensures BenignUntil(w.env, expected, |old(w.trace)| + 1) && PayloadsCreated(old(w.fs), root, made, l)
            && codec.encode(expected).Some? && codec.encode(expected).value != [] ==>
              manifest.Ok? && synced.Ok? && JustCreated(w.fs, root, made + [manifest.value])
  {
    synced := Err(WriteFailed);
    var ok, one := w.Conserve();
    CourseCallback(one[0], root);
    PartExtends(done, one[0], l);
    ev := one;
    if !ok {
      return Err(ConserveFailed), synced, ev;
    }
    ghost var mid := w.fs;
    ghost var created;
    manifest, synced, created := CreateManifest(w, root, l, expected, codec, made);
    RunExtends(one, created, root, old(w.fs), mid, w.fs, done, l);
    Joined(old(w.trace), one, created);
    ev := one + created;
  }

  /** The second part: conserve, then create the manifest. `done` is the run so far. */
  method PublishManifest<C(!new)>(w: World<C>, root: Directory, first: OutputObservations, l: Layout,
                                  ghost payloads: seq<seq<uint8>>, expected: C, codec: Codec<C>,
                                  ghost done: seq<Event<C>>)
    returns (r: Result<(), CustodyError>, ghost ev: seq<Event<C>>)
    requires WellFormedLayout(l)
    requires |done| == |l.payloads| + 1 && PayloadsReplayed(done, l, payloads, expected)
    requires Observed(first.files, None, root, l) && first.manifest == None && FromCreations(done, first.files, None, l)
    requires w.Valid()
    modifies w, first`manifest
    ensures w.Valid()
    ensures w.trace == old(w.trace) + ev && Course(ev, root, old(w.fs), w.fs)
    ensures 1 <= |ev| <= 2 && InitialPart(done + ev, l) && (|ev| == 2 ==> ev[0].Conserved? && ev[0].ok)
    ensures Observed(first.files, first.manifest, root, l) && FromCreations(done + ev, first.files, first.manifest, l)
    ensures r.Ok? ==>
              && |ev| == 2 && first.manifest.Some? && Some(first.manifest.value.bytes) == codec.encode(expected)
              && w.env.fault(w.trace) == NoFault
    ensures Benign(w.env, expected) && PayloadsCreated(old(w.fs), root, first.files, l)
            && codec.encode(expected).Some? && codec.encode(expected).value != [] ==>
              r.Ok? && JustCreated(w.fs, root, first.files + [first.manifest.value])
  {
    var manifest, synced;
    manifest, synced, ev := ConserveThenCreate(w, root, l, expected, codec, done, first.files);
    FromCreationsExtend(done, ev, first.files, None, l);
    if manifest.Err? {
      return Err(manifest.error), ev;
    }
    first.manifest := Some(manifest.value);
    return synced, ev;
  }

  /** What a successful run of the closure has done, and what was still there whenever it looked: the payloads after
      the first replay, and everything when it was read back and when the re-read's conserve was entered. */
  ghost predicate PublishedRun<C>(ev: seq<Event<C>>, l: Layout, payloads: seq<seq<uint8>>, expected: C, root: Directory,
                                  files: seq<Snapshot>, manifest: Option<Snapshot>, codec: Codec<C>) {
    var n := |l.payloads|;
    && |ev| >= n + 5 && PayloadsReplayed(ev[..n + 1], l, payloads, expected) && AllHeld(ev[n].after, files)
    && ev[n + 1].Conserved? && ev[n + 1].ok && ev[n + 4].Conserved? && ev[n + 4].ok
    && ev[n + 3].Replayed? && ev[n + 3].payloads == payloads && manifest.Some?
    && ev[n + 3].result.Some? && ev[n + 3].result == codec.Decode(manifest.value.bytes)
    && Some(manifest.value.bytes) == codec.encode(expected)
    && Complete(ev[n + 3].before, root, files, manifest, l) && Complete(ev[n + 4].before, root, files, manifest, l)
    && OwnNodes(files, manifest.value)
  }

  /** The closure of `publish_retained` up to the manifest. */
  method PublishUntilManifest<C(==,!new)>(w: World<C>, root: Directory, first: OutputObservations, l: Layout,
                                          payloads: seq<seq<uint8>>, expected: C, codec: Codec<C>)
    returns (r: Result<(), CustodyError>, ghost ev: seq<Event<C>>)
    requires WellFormedLayout(l) && |payloads| == |l.payloads|
    requires first.files == [] && first.manifest == None
    requires w.Valid()
    modifies w, first
    ensures w.Valid()
    ensures w.trace == old(w.trace) + ev && Course(ev, root, old(w.fs), w.fs)
    ensures InitialPart(ev, l) && |ev| <= |l.payloads| + 3 && ManifestLast(ev, l, payloads, expected)
    ensures Observed(first.files, first.manifest, root, l) && FromCreations(ev, first.files, first.manifest, l)
    ensures BeganEmpty(ev, old(w.fs), root)
    ensures r.Ok? ==>
              && |ev| == |l.payloads| + 3 && PayloadsReplayed(ev[..|l.payloads| + 1], l, payloads, expected)
              && ev[|l.payloads| + 1].Conserved? && ev[|l.payloads| + 1].ok && BytesOf(first.files) == payloads
              && AllHeld(ev[|l.payloads|].after, first.files)
              && first.manifest.Some? && Some(first.manifest.value.bytes) == codec.encode(expected)
              && w.env.fault(w.trace) == NoFault
    ensures Benign(w.env, expected) && EmptyDirectory(old(w.fs), root) && Suitable(l, payloads, expected, codec) ==>
              && r.Ok? && Settled(w.env, w.fs, root, l, codec)
              && Complete(w.fs, root, first.files, first.manifest, l)
  {
    ghost var start := w.fs;
    var published, a := PublishPayloads(w, root, first, l, payloads, expected);
    ev := a;
    if published.Err? {
      return published, ev;
    }
    ghost var mid := w.fs;
    var completed, b := PublishManifest(w, root, first, l, payloads, expected, codec, a);
    CourseAppend(a, b, root, start, mid, w.fs);
    Joined(old(w.trace), a, b);
    ev := a + b;
    assert ev[..|a|] == a && ev[|a|] == b[0];
    if first.manifest.Some? && JustCreated(w.fs, root, first.files + [first.manifest.value]) {
      CreatedIsComplete(w.fs, root, first.files, first.manifest.value, l);
      if completed.Ok? && Suitable(l, payloads, expected, codec) {
        CompleteIsPublishable(w.fs, root, first.files, first.manifest.value, l, payloads, expected, codec);
      }
    }
    return completed, ev;
  }

  /** The directory was flushed, without a fault, after the manifest. */
  ghost predicate Flushed<C>(env: Environment<C>, history: seq<Event<C>>, ev: seq<Event<C>>, l: Layout) {
    |ev| >= |l.payloads| + 3 && env.fault(history + ev[..|l.payloads| + 3]) == NoFault
  }

  lemma FlushedExtends<C>(env: Environment<C>, history: seq<Event<C>>, a: seq<Event<C>>, c: seq<Event<C>>, l: Layout)
    requires |a| >= |l.payloads| + 3 && env.fault(history + a[..|l.payloads| + 3]) == NoFault
    ensures Flushed(env, history, a + c, l)
  {
    assert (a + c)[..|l.payloads| + 3] == a[..|l.payloads| + 3];
  }

  /** The closure of `publish_retained`. */
  method PublishBody<C(==,!new)>(w: World<C>, root: Directory, first: OutputObservations, l: Layout,
                                 payloads: seq<seq<uint8>>, expected: C, codec: Codec<C>)
    returns (r: Result<(), CustodyError>, ghost ev: seq<Event<C>>, ghost inner: bool)
    requires WellFormedLayout(l) && |payloads| == |l.payloads|
    requires first.files == [] && first.manifest == None
    requires w.Valid()
    modifies w, first
    ensures w.Valid()
    ensures w.trace == old(w.trace) + ev && Course(ev, root, old(w.fs), w.fs)
    ensures BodyRun(ev, inner, l) && ManifestLast(ev, l, payloads, expected)
    ensures Observed(first.files, first.manifest, root, l) && FromCreations(ev, first.files, first.manifest, l)
    ensures BeganEmpty(ev, old(w.fs), root)
    ensures r.Ok? ==>
              && inner && |ev| == |l.payloads| + 5 && BytesOf(first.files) == payloads && first.manifest.Some?
              && PublishedRun(ev, l, payloads, expected, root, first.files, first.manifest, codec)
              && Flushed(w.env, old(w.trace), ev, l)
    ensures Benign(w.env, expected) && EmptyDirectory(old(w.fs), root) && Suitable(l, payloads, expected, codec) ==>
              r.Ok? && Complete(w.fs, root, first.files, first.manifest, l)
  {
    inner := false;
    var completed, a := PublishUntilManifest(w, root, first, l, payloads, expected, codec);
    ev := a;
    if completed.Err? {
      return completed, ev, inner;
    }
    assert a[..|l.payloads| + 3] == a;
    var reread := new OutputObservations();
    ghost var mid := w.fs;
    ghost var c;
    r, c, inner := VerifyPublishedRetained(w, root, reread, l, codec, Some(first));
    CourseAppend(a, c, root, old(w.fs), mid, w.fs);
    Joined(old(w.trace), a, c);
    ev := a + c;
    BodyRunCloses(a, c, inner, l);
    FromCreationsExtend(a, c, first.files, first.manifest, l);
    ManifestLastExtends(a, c, l, payloads, expected);
    FlushedExtends(w.env, old(w.trace), a, c, l);
    if r.Ok? {
      RunSucceeds(a, c, l, payloads, expected, root, first.files, first.manifest, codec, mid);
    }
  }

  lemma ManifestLastExtends<C>(a: seq<Event<C>>, c: seq<Event<C>>, l: Layout, payloads: seq<seq<uint8>>, expected: C)
    requires |a| == |l.payloads| + 3 && ManifestLast(a, l, payloads, expected)
    ensures ManifestLast(a + c, l, payloads, expected)
  {
    var n := |l.payloads|;
    assert (a + c)[n] == a[n] && (a + c)[n + 1] == a[n + 1] && (a + c)[n + 2] == a[n + 2];
  }

  lemma RunSucceeds<C>(a: seq<Event<C>>, c: seq<Event<C>>, l: Layout, payloads: seq<seq<uint8>>, expected: C,
                       root: Directory, files: seq<Snapshot>, manifest: Option<Snapshot>, codec: Codec<C>, mid: FsState)
    requires |a| == |l.payloads| + 3 && PayloadsReplayed(a[..|l.payloads| + 1], l, payloads, expected)
    requires a[|l.payloads| + 1].Conserved? && a[|l.payloads| + 1].ok && AllHeld(a[|l.payloads|].after, files)
    requires Reread(c, files, manifest, codec) && BytesOf(files) == payloads && c[0].before == mid
    requires OwnNodes(files, manifest.value)
    requires Complete(mid, root, files, manifest, l) && Complete(c[1].before, root, files, manifest, l)
    requires Some(manifest.value.bytes) == codec.encode(expected)
    ensures PublishedRun(a + c, l, payloads, expected, root, files, manifest, codec)
  {
    var n := |l.payloads|;
    var all := a + c;
    assert all[..n + 1] == a[..n + 1] && all[n] == a[n] && all[n + 1] == a[n + 1];
    assert all[n + 3] == c[0] && all[n + 4] == c[1];
  }

  lemma BodyRunCloses<C>(before: seq<Event<C>>, rest: seq<Event<C>>, inner: bool, l: Layout)
    requires InitialPart(before, l) && |before| == |l.payloads| + 3
    requires RereadShape(rest, inner)
    ensures BodyRun(before + rest, inner, l)
  {
    var all := before + rest;
    if |rest| > 0 && rest[0].Replayed? {
      PartExtends(before, rest[0], l);
      assert all[..|before| + 1] == before + [rest[0]];
    } else {
      assert all[..|before|] == before;
    }
    if !inner && rest != [] { assert all == before + [rest[0]]; }
    if rest == [] { assert all == before; }
    if inner { assert all[..|all| - 1] == before + rest[..|rest| - 1]; }
  }

  /** In a successful run the second replay answered with the very checkpoint that was to be published. */
  lemma SecondReplayAgrees<C(!new)>(ev: seq<Event<C>>, l: Layout, payloads: seq<seq<uint8>>, expected: C,
                                    root: Directory, files: seq<Snapshot>, manifest: Option<Snapshot>, codec: Codec<C>)
    requires PublishedRun(ev, l, payloads, expected, root, files, manifest, codec) && Injective(codec)
    ensures ev[|l.payloads| + 3].result == Some(expected)
  {
    var answer := ev[|l.payloads| + 3].result.value;
    assert codec.encode(answer) == Some(manifest.value.bytes);
  }

  /** `publish_retained` past its entry check. */
  method PublishAcquired<C(==,!new)>(w: World<C>, root: Directory, first: OutputObservations, l: Layout,
                                     payloads: seq<seq<uint8>>, expected: C, codec: Codec<C>)
    returns (r: Result<(), CustodyError>, ghost ev: seq<Event<C>>)
    requires WellFormedLayout(l) && |payloads| == |l.payloads|
    requires first.files == [] && first.manifest == None
    requires w.Valid()
    modifies w, first
    ensures w.Valid()
    ensures w.trace == old(w.trace) + ev && Course(ev, root, old(w.fs), w.fs)
    ensures PublishRun(ev, l) && ManifestLast(ev, l, payloads, expected) && BeganEmpty(ev, old(w.fs), root)
    ensures Observed(first.files, first.manifest, root, l) && FromCreations(ev, first.files, first.manifest, l)
    ensures r.Ok? ==> FullyPublished(ev, l, payloads, expected, root, first.files, first.manifest, codec)
    ensures r.Ok? ==> Flushed(w.env, old(w.trace), ev, l)
    ensures r.Ok? ==> Complete(w.fs, root, first.files, first.manifest, l) && BytesOf(first.files) == payloads
    ensures Benign(w.env, expected) && EmptyDirectory(old(w.fs), root) && Suitable(l, payloads, expected, codec) ==>
              r.Ok?
  {
    ghost var start := w.fs;
    var result, body, inner := PublishBody(w, root, first, l, payloads, expected, codec);
    ghost var mid := w.fs;
    var conserved, last := w.Conserve();
    CourseCallback(last[0], root);
    CourseAppend(body, last, root, start, mid, w.fs);
    Joined(old(w.trace), body, last);
    ev := body + last;
    assert ev[..|ev| - 1] == body;
    FromCreationsExtend(body, last, first.files, first.manifest, l);
    var conservation := Ensure(conserved, ConserveFailed);
    r := Close(w.fs, first.files, first.manifest, root, l, result, conservation);
    if r.Ok? {
      FlushedExtends(w.env, old(w.trace), body, last, l);
      FullRun(body, last[0], l, payloads, expected, root, first.files, first.manifest, codec);
    }
  }

  /** `publish_retained`, with any environment acting inside every callback. On success every file in the
      directory at return is the one the run created under its name, with the bytes and version it then had. */
  method PublishRetained<C(==,!new)>(w: World<C>, root: Directory, first: OutputObservations, l: Layout,
                                     payloads: seq<seq<uint8>>, expected: C, codec: Codec<C>)
    returns (r: Result<(), CustodyError>, ghost ev: seq<Event<C>>)
    requires WellFormedLayout(l) && |payloads| == |l.payloads|
    requires w.Valid()
    modifies w, first
    ensures w.Valid()
    ensures w.trace == old(w.trace) + ev && Course(ev, root, old(w.fs), w.fs)
    ensures old(first.files != [] || first.manifest != None) ==> r == Err(AlreadyAcquired) && ev == []
    ensures old(first.files == [] && first.manifest == None) ==>
              && PublishRun(ev, l) && ManifestLast(ev, l, payloads, expected) && BeganEmpty(ev, old(w.fs), root)
              && Observed(first.files, first.manifest, root, l) && FromCreations(ev, first.files, first.manifest, l)
    ensures r.Ok? ==> FullyPublished(ev, l, payloads, expected, root, first.files, first.manifest, codec)
    ensures r.Ok? ==> Flushed(w.env, old(w.trace), ev, l)
    ensures r.Ok? ==> Stands(w.fs, root, l, payloads, codec.encode(expected).value) && LeftAsCreated(ev, w.fs, root)
    ensures r.Ok? ==> Complete(w.fs, root, first.files, first.manifest, l) && BytesOf(first.files) == payloads
    ensures old(first.files == [] && first.manifest == None) && Benign(w.env, expected)
            && EmptyDirectory(old(w.fs), root)
            && Suitable(l, payloads, expected, codec) ==>
              r.Ok?
  {
    ev := [];
    if !(first.files == [] && first.manifest == None) {
      CourseEmpty<C>(root, w.fs);
      return Err(AlreadyAcquired), ev;
    }
    r, ev := PublishAcquired(w, root, first, l, payloads, expected, codec);
    if r.Ok? { PublishedStands(ev, l, payloads, expected, root, first.files, first.manifest, codec, w.fs); }
  }

  lemma PublishedStands<C(!new)>(ev: seq<Event<C>>, l: Layout, payloads: seq<seq<uint8>>, expected: C, root: Directory,
                                 files: seq<Snapshot>, manifest: Option<Snapshot>, codec: Codec<C>, fs: FsState)
    requires FullyPublished(ev, l, payloads, expected, root, files, manifest, codec)
    requires FromCreations(ev, files, manifest, l) && Complete(fs, root, files, manifest, l)
    requires BytesOf(files) == payloads
    ensures Stands(fs, root, l, payloads, codec.encode(expected).value) && LeftAsCreated(ev, fs, root)
  {
    CompleteStands(fs, root, files, manifest, l);
    CreatedAreLeft(ev, [LConserve, LConserve], files, manifest, fs, root, l);
  }

  /** Every file the run created stands under its name, as the same record that its creation left. */
  ghost predicate LeftAsCreated<C>(ev: seq<Event<C>>, fs: FsState, root: Directory) {
    forall i :: 0 <= i < |ev| && ev[i].Created? ==> LeftAs(ev[i], fs, root)
  }

  ghost predicate LeftAs<C>(e: Event<C>, fs: FsState, root: Directory)
    requires e.Created?
  {
    && root.chain[|root.chain| - 1] in fs.entries
    && e.name in fs.entries[root.chain[|root.chain| - 1]]
    && fs.entries[root.chain[|root.chain| - 1]][e.name] == e.node
    && e.node in fs.files && e.node in e.after.files && fs.files[e.node] == e.after.files[e.node]
  }

  lemma CreatedIsLeft<C>(e: Event<C>, s: Snapshot, fs: FsState, root: Directory)
    requires CreationOf(e, s) && Held(fs, s) && s.dir == root
    ensures LeftAs(e, fs, root)
  {
  }

  lemma CreatedAreLeft<C>(ev: seq<Event<C>>, rest: seq<Label>, files: seq<Snapshot>, manifest: Option<Snapshot>,
                          fs: FsState, root: Directory, l: Layout)
    requires Labels(ev) == Protocol(l) + rest && forall i :: 0 <= i < |rest| ==> !rest[i].LCreate?
    requires FromCreations(ev, files, manifest, l) && Complete(fs, root, files, manifest, l)
    ensures LeftAsCreated(ev, fs, root)
  {
    forall i | 0 <= i < |ev| && ev[i].Created? ensures LeftAs(ev[i], fs, root) {
      assert LabelOf(ev[i]) == Labels(ev)[i];
      if i < |l.payloads| {
        CreatedIsLeft(ev[i], files[i], fs, root);
      } else {
        assert i == |l.payloads| + 2;
        CreatedIsLeft(ev[i], manifest.value, fs, root);
      }
    }
  }

  /** A successful run, callback by callback: the trace, what both replays received, and the manifest. */
  ghost predicate FullyPublished<C(!new)>(ev: seq<Event<C>>, l: Layout, payloads: seq<seq<uint8>>, expected: C,
                                          root: Directory, files: seq<Snapshot>, manifest: Option<Snapshot>,
                                          codec: Codec<C>) {
    var n := |l.payloads|;
    && |ev| == n + 6 && Labels(ev) == Protocol(l) + [LConserve, LConserve]
    && PublishedRun(ev, l, payloads, expected, root, files, manifest, codec)
    && ev[n + 5].Conserved? && ev[n + 5].ok
    && (Injective(codec) ==> ev[n + 3].result == Some(expected))
  }

  lemma FullRun<C(!new)>(body: seq<Event<C>>, last: Event<C>, l: Layout, payloads: seq<seq<uint8>>, expected: C,
                         root: Directory, files: seq<Snapshot>, manifest: Option<Snapshot>, codec: Codec<C>)
    requires |body| == |l.payloads| + 5 && BodyRun(body, true, l) && last.Conserved? && last.ok
    requires PublishedRun(body, l, payloads, expected, root, files, manifest, codec)
    ensures FullyPublished(body + [last], l, payloads, expected, root, files, manifest, codec)
  {
    var ev := body + [last];
    assert forall i :: 0 <= i < |body| ==> ev[i] == body[i];
    assert forall i :: 0 <= i < |body| - 1 ==> body[..|body| - 1][i] == ev[i];
    assert ev[..|l.payloads| + 1] == body[..|l.payloads| + 1];
    if Injective(codec) { SecondReplayAgrees(ev, l, payloads, expected, root, files, manifest, codec); }
  }
}
