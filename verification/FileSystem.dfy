/** Descriptor-relative custody of files in one output directory: the file-system state, retained
    directories and snapshots, and the create-only write. Between callbacks nobody else acts. */
module FileSystem {
  import opened Wrappers
  import opened Words

  type Node = nat
  type Name = string

  /** A regular file; `version` stands for every metadata field that a change would move. */
  datatype FileData = FileData(bytes: seq<uint8>, version: nat, links: nat)

  /** `paths` gives the chain of directory nodes each path leads through now, where it leads anywhere. */
  datatype FsState = FsState(
    paths: map<string, seq<Node>>, liveDirs: set<Node>, entries: map<Node, map<Name, Node>>, files: map<Node, FileData>)

  type Chain = s: seq<Node> | s != [] witness [0]

  /** A retained directory: its path, and the chain of nodes opened from the root down. */
  datatype Directory = Directory(path: string, chain: Chain) {
    function Last(): Node { chain[|chain| - 1] }
  }

  datatype Signature = Signature(length: nat, version: nat)

  /** A first observation: what was read, from which node, under which name. */
  datatype Snapshot = Snapshot(dir: Directory, name: Name, node: Node, signature: Signature, bytes: seq<uint8>)

  datatype CustodyError =
    | DirectoryDrift | OpenFailed | ByteBound | LinkCount | IdentityDrift | BytesDrift | CreateFailed | WriteFailed
    | WriteIdentityDrift | InventoryMismatch | AlreadyAcquired | Cardinality | ReplayFailed | ReplayDiffers
    | ConserveFailed | ManifestInvalid | DuplicateIdentity | ProveFailed | ObservationsMissing

  // ---------- Reading ----------

  function Entries(fs: FsState, d: Directory): map<Name, Node> {
    if d.Last() in fs.entries then fs.entries[d.Last()] else map[]
  }

  /** The path still leads through the retained nodes, and none is unlinked. */
  ghost predicate DirVerified(fs: FsState, d: Directory) {
    d.path in fs.paths && fs.paths[d.path] == d.chain && forall i :: 0 <= i < |d.chain| ==> d.chain[i] in fs.liveDirs
  }

  /** `Directory::verify`: reopens the path and compares what it leads through now with the retained chain. */
  function VerifyDir(fs: FsState, d: Directory): (r: Result<(), CustodyError>)
    ensures r.Ok? <==> DirVerified(fs, d)
  {
    if d.path !in fs.paths then Err(DirectoryDrift)
    else
      var current := fs.paths[d.path];
      var _ :- Ensure(|current| == |d.chain|, DirectoryDrift);
      SameChain(fs, d.chain, current)
  }

  function SameChain(fs: FsState, retained: seq<Node>, current: seq<Node>): (r: Result<(), CustodyError>)
    requires |retained| == |current|
    ensures r.Ok? <==> retained == current && forall i :: 0 <= i < |retained| ==> retained[i] in fs.liveDirs
  {
    if retained == [] then Ok(())
    else
      assert retained == [retained[0]] + retained[1..] && current == [current[0]] + current[1..];
      var _ :- Ensure(retained[0] == current[0] && retained[0] in fs.liveDirs, DirectoryDrift);
      SameChain(fs, retained[1..], current[1..])
  }

  function OpenRead(fs: FsState, d: Directory, name: Name): (r: Result<Node, CustodyError>)
    ensures r.Ok? ==> r.value in fs.files
  {
    if name in Entries(fs, d) && Entries(fs, d)[name] in fs.files then Ok(Entries(fs, d)[name]) else Err(OpenFailed)
  }

  function SignatureOf(f: FileData): Signature {
    Signature(|f.bytes|, f.version)
  }

  /** `Snapshot::verify_identity`: the retained file and the file reopened by name are one, with one link and
      the first signature. */
  function VerifyIdentity(fs: FsState, s: Snapshot): Result<(), CustodyError> {
    var _ :- VerifyDir(fs, s.dir);
    var reopened :- OpenRead(fs, s.dir, s.name);
    Ensure(s.node in fs.files && fs.files[s.node].links == 1 && reopened == s.node
           && SignatureOf(fs.files[s.node]) == s.signature, IdentityDrift)
  }

  /** `Snapshot::read_at`. */
  function ReadAt(fs: FsState, d: Directory, name: Name, maximum: nat): Result<Snapshot, CustodyError> {
    var _ :- VerifyDir(fs, d);
    var node :- OpenRead(fs, d, name);
    var f := fs.files[node];
    var _ :- Ensure(0 < |f.bytes| <= maximum, ByteBound);
    var _ :- Ensure(f.links == 1, LinkCount);
    var value := Snapshot(d, name, node, SignatureOf(f), f.bytes);
    var _ :- VerifyIdentity(fs, value);
    Ok(value)
  }

  /** `Snapshot::verify`. */
  function VerifySnapshot(fs: FsState, s: Snapshot): Result<(), CustodyError> {
    var _ :- VerifyIdentity(fs, s);
    var current :- ReadAt(fs, s.dir, s.name, |s.bytes|);
    var _ :- Ensure(current.node == s.node && current.bytes == s.bytes, BytesDrift);
    VerifyIdentity(fs, s)
  }

  /** The file system holds exactly what was observed: the same directory, and under the same name the same
      node with the same bytes, version and single link. */
  ghost predicate Held(fs: FsState, s: Snapshot) {
    && DirVerified(fs, s.dir)
    && s.name in Entries(fs, s.dir) && Entries(fs, s.dir)[s.name] == s.node
    && s.node in fs.files && fs.files[s.node] == FileData(s.bytes, s.signature.version, 1)
  }

  /** A re-verified snapshot is held, byte for byte, whatever happened since it was taken; and nothing but a
      change to what it observed makes its verification fail. */
  lemma VerifiedIffHeld(fs: FsState, s: Snapshot)
    requires s.signature.length == |s.bytes| > 0
    ensures VerifySnapshot(fs, s).Ok? <==> Held(fs, s)
  {
  }

  lemma ReadIsHeld(fs: FsState, d: Directory, name: Name, maximum: nat)
    requires ReadAt(fs, d, name, maximum).Ok?
    ensures var s := ReadAt(fs, d, name, maximum).value;
            Held(fs, s) && s.dir == d && s.name == name && s.signature.length == |s.bytes| && 0 < |s.bytes| <= maximum
  {
  }

  /** Two observations of one name that are held in the same state are of the same node, bytes and version. */
  lemma HeldTogether(fs: FsState, s: Snapshot, t: Snapshot)
    requires Held(fs, s) && Held(fs, t) && s.dir.Last() == t.dir.Last() && s.name == t.name
    ensures s.node == t.node && s.bytes == t.bytes && s.signature.version == t.signature.version
  {
  }

  /** What is held stays held while the code creates files under other names. */
  lemma CreationKeeps(before: FsState, after: FsState, d: Directory, name: Name, node: Node, s: Snapshot)
    requires OwnCreation(before, after, d, name, node) && Held(before, s)
    ensures Held(after, s)
  {
    assert s.node != node;
    assert s.node in before.files.Keys && s.node in after.files - {node};
    assert after.files[s.node] == (after.files - {node})[s.node];
  }

  /** `require_names`: the directory's entries are exactly the expected names. */
  function RequireNames(fs: FsState, d: Directory, expected: seq<Name>): Result<(), CustodyError> {
    var _ :- VerifyDir(fs, d);
    Ensure(Entries(fs, d).Keys == NameSet(expected), InventoryMismatch)
  }

  function NameSet(names: seq<Name>): set<Name> {
    set n | n in names
  }

  // ---------- Events and the environment ----------

  /** What happens in a run: the code's own creations, and the callbacks inside which anything may happen. */
  datatype Event<C> =
    | Created(name: Name, node: Node, before: FsState, after: FsState)
    | Replayed(payloads: seq<seq<uint8>>, result: Option<C>, before: FsState, after: FsState)
    | Conserved(ok: bool, before: FsState, after: FsState)
    | Proved(ok: bool, before: FsState, after: FsState)

  /** What the storage may do to one write: refuse to create, or fail with at most `written` bytes written. */
  datatype Fault = NoFault | CreateFault | WriteFault(written: nat)

  /** The callbacks' answers and what the environment does inside them, the storage's faults, and the node and
      version it gives a new file if that node is free. All of them may depend on the whole history. */
  datatype Environment<!C> = Environment(
    replay: (seq<Event<C>>, seq<seq<uint8>>, FsState) -> (Option<C>, FsState),
    conserve: (seq<Event<C>>, FsState) -> (bool, FsState),
    prove: (seq<Event<C>>, FsState) -> (bool, FsState),
    fault: seq<Event<C>> -> Fault,
    allocate: seq<Event<C>> -> (Node, nat))

  /** An environment in which nothing goes wrong: every callback succeeds and leaves the state as it found it,
      whatever it did in between, every replay answers `expected`, and the storage does not fail. */
  ghost predicate Benign<C(!new)>(env: Environment<C>, expected: C) {
    && (forall h, payloads, fs :: env.replay(h, payloads, fs) == (Some(expected), fs))
    && (forall h, fs :: env.conserve(h, fs) == (true, fs))
    && (forall h, fs :: env.prove(h, fs) == (true, fs))
    && Reliable(env)
  }

  ghost predicate Reliable<C(!new)>(env: Environment<C>) {
    forall h :: env.fault(h) == NoFault
  }

  /** As `Benign`, but of the callbacks only while the history is shorter than `horizon`. */
  ghost predicate BenignUntil<C(!new)>(env: Environment<C>, expected: C, horizon: nat) {
    && (forall h, payloads, fs :: |h| < horizon ==> env.replay(h, payloads, fs) == (Some(expected), fs))
    && (forall h, fs :: |h| < horizon ==> env.conserve(h, fs) == (true, fs))
    && Reliable(env)
  }

  /** The event is what the environment does after this history. */
  ghost predicate Agrees<C>(env: Environment<C>, history: seq<Event<C>>, e: Event<C>) {
    match e
    case Created(_, node, before, after) =>
      var (preferred, version) := env.allocate(history);
      && node !in before.files && node in after.files
      && (preferred !in before.files ==> node == preferred && after.files[node].version == version)
    case Replayed(payloads, result, before, after) => (result, after) == env.replay(history, payloads, before)
    case Conserved(ok, before, after) => (ok, after) == env.conserve(history, before)
    case Proved(ok, before, after) => (ok, after) == env.prove(history, before)
  }

  /** Every event of the trace is what the environment does after the events before it. */
  ghost predicate Faithful<C>(env: Environment<C>, trace: seq<Event<C>>) {
    trace != [] ==>
      var front := trace[..|trace| - 1];
      Agrees(env, front, trace[|trace| - 1]) && Faithful(env, front)
  }

  lemma {:induction false} FaithfulAt<C>(env: Environment<C>, trace: seq<Event<C>>, i: nat)
    requires Faithful(env, trace) && i < |trace|
    ensures Agrees(env, trace[..i], trace[i])
  {
    var front := trace[..|trace| - 1];
    if i < |front| {
      FaithfulAt(env, front, i);
      assert trace[..i] == front[..i] && trace[i] == front[i];
    }
  }

  /** The same of the events after a history. */
  lemma FaithfulLater<C>(env: Environment<C>, history: seq<Event<C>>, events: seq<Event<C>>, i: nat)
    requires Faithful(env, history + events) && i < |events|
    ensures Agrees(env, (history + events)[..|history| + i], events[i])
  {
    FaithfulAt(env, history + events, |history| + i);
  }

  /** A callback of a benign environment succeeds and changes nothing. */
  lemma BenignCallback<C(!new)>(env: Environment<C>, expected: C, history: seq<Event<C>>, e: Event<C>)
    requires Benign(env, expected) && Agrees(env, history, e) && !e.Created?
    ensures e.after == e.before && (e.Replayed? ==> e.result == Some(expected)) && (e.Conserved? ==> e.ok)
  {
  }

  lemma FaithfulSnoc<C>(env: Environment<C>, trace: seq<Event<C>>, e: Event<C>)
    requires Faithful(env, trace) && Agrees(env, trace, e)
    ensures Faithful(env, trace + [e])
  {
    assert (trace + [e])[..|trace|] == trace;
  }

  /** The state changes of a run are exactly its events, one after the other. */
  ghost predicate Chained<C>(events: seq<Event<C>>, from: FsState, to: FsState) {
    if events == [] then from == to
    else
      var last := events[|events| - 1];
      last.after == to && Chained(events[..|events| - 1], from, last.before)
  }

  lemma {:induction false} ChainedAppend<C>(a: seq<Event<C>>, b: seq<Event<C>>, from: FsState, mid: FsState,
                                            to: FsState)
    requires Chained(a, from, mid) && Chained(b, mid, to)
    ensures Chained(a + b, from, to)
  {
    if b == [] {
      assert a + b == a;
    } else {
      var front := b[..|b| - 1];
      ChainedAppend(a, front, from, mid, b[|b| - 1].before);
      assert (a + b)[..|a + b| - 1] == a + front;
    }
  }

  lemma {:induction false} ChainedAt<C>(events: seq<Event<C>>, from: FsState, to: FsState, i: nat)
    requires Chained(events, from, to) && i < |events|
    ensures events[i].before == if i == 0 then from else events[i - 1].after
  {
    var front := events[..|events| - 1];
    if i < |front| {
      ChainedAt(front, from, events[|front|].before, i);
    } else if i > 0 {
      assert front[|front| - 1] == events[i - 1];
    }
  }

  lemma Joined<T>(x: seq<T>, a: seq<T>, b: seq<T>)
    ensures x + a + b == x + (a + b)
  {
  }

  lemma ChainedOne<C>(e: Event<C>)
    ensures Chained([e], e.before, e.after)
  {
    assert [e][..0] == [];
  }

  /** A creation adds one entry under a free name, for a node that was no file before, and touches nothing
      else. */
  ghost predicate OwnCreation(before: FsState, after: FsState, d: Directory, name: Name, node: Node) {
    && name !in Entries(before, d) && node !in before.files
    && node in after.files && after.files - {node} == before.files
    && after.entries == before.entries[d.Last() := Entries(before, d)[name := node]]
    && after.paths == before.paths && after.liveDirs == before.liveDirs
  }

  /** Every creation in a run is one. */
  ghost predicate OwnSteps<C>(events: seq<Event<C>>, d: Directory) {
    forall i :: 0 <= i < |events| && events[i].Created? ==>
      OwnCreation(events[i].before, events[i].after, d, events[i].name, events[i].node)
  }

  /** The state after creating a file. */
  function WithFile(fs: FsState, d: Directory, name: Name, node: Node, file: FileData): (after: FsState)
    requires name !in Entries(fs, d) && node !in fs.files
    ensures OwnCreation(fs, after, d, name, node) && after.files[node] == file
    ensures DirVerified(fs, d) <==> DirVerified(after, d)
    ensures Entries(after, d) == Entries(fs, d)[name := node]
  {
    var after := fs.(entries := fs.entries[d.Last() := Entries(fs, d)[name := node]], files := fs.files[node := file]);
    assert after.files - {node} == fs.files;
    after
  }

  class World<C> {
    const env: Environment<C>
    var fs: FsState
    var trace: seq<Event<C>>

    /** The trace is a run of this environment. */
    ghost predicate Valid()
      reads this
    {
      Faithful(env, trace)
    }

    constructor (env: Environment<C>, fs: FsState)
      ensures this.env == env && this.fs == fs && trace == [] && Valid()
    {
      this.env := env;
      this.fs := fs;
      trace := [];
    }

    method Replay(payloads: seq<seq<uint8>>) returns (result: Option<C>, ghost ev: seq<Event<C>>)
      requires Valid()
      modifies this
      ensures Valid()
      ensures trace == old(trace) + ev && ev == [Replayed(payloads, result, old(fs), fs)]
      ensures (result, fs) == env.replay(old(trace), payloads, old(fs))
    {
      var (answer, after) := env.replay(trace, payloads, fs);
      result := answer;
      ev := [Replayed(payloads, answer, fs, after)];
      FaithfulSnoc(env, trace, ev[0]);
      trace := trace + [Replayed(payloads, answer, fs, after)];
      fs := after;
    }

    method Conserve() returns (ok: bool, ghost ev: seq<Event<C>>)
      requires Valid()
      modifies this
      ensures Valid()
      ensures trace == old(trace) + ev && ev == [Conserved(ok, old(fs), fs)]
      ensures (ok, fs) == env.conserve(old(trace), old(fs))
    {
      var (answer, after) := env.conserve(trace, fs);
      ok := answer;
      ev := [Conserved(answer, fs, after)];
      FaithfulSnoc(env, trace, ev[0]);
      trace := trace + [Conserved(answer, fs, after)];
      fs := after;
    }

    method Prove() returns (ok: bool, ghost ev: seq<Event<C>>)
      requires Valid()
      modifies this
      ensures Valid()
      ensures trace == old(trace) + ev && ev == [Proved(ok, old(fs), fs)]
      ensures (ok, fs) == env.prove(old(trace), old(fs))
    {
      var (answer, after) := env.prove(trace, fs);
      ok := answer;
      ev := [Proved(answer, fs, after)];
      FaithfulSnoc(env, trace, ev[0]);
      trace := trace + [Proved(answer, fs, after)];
      fs := after;
    }

    /** `Directory::write_new_retained`. It may fail before the file exists, leaving everything unchanged, or
        after, leaving a new file with some prefix of the bytes; on success the new file is held. */
    method WriteNew(d: Directory, name: Name, bytes: seq<uint8>)
      returns (r: Result<Snapshot, CustodyError>, ghost ev: seq<Event<C>>)
      requires Valid()
      modifies this
      ensures Valid()
      ensures trace == old(trace) + ev && Chained(ev, old(fs), fs) && OwnSteps(ev, d)
      ensures ev == [] || (|ev| == 1 && ev[0].Created? && ev[0].name == name)
      ensures ev != [] ==> ev[0].before == old(fs) && ev[0].after == fs
      ensures ev == [] ==> fs == old(fs)
      ensures ev != []
              <==> DirVerified(old(fs), d) && name !in Entries(old(fs), d) && env.fault(old(trace)) != CreateFault
      ensures r.Ok? <==> ev != [] && env.fault(old(trace)) == NoFault && bytes != []
      ensures r.Ok? ==>
                && Held(fs, r.value) && r.value.node == ev[0].node
                && r.value.dir == d && r.value.name == name && r.value.bytes == bytes
                && r.value.signature.length == |bytes| > 0
    {
      ev := [];
      if VerifyDir(fs, d).Err? {
        return Err(DirectoryDrift), ev;
      }
      var fault := env.fault(trace);
      if name in Entries(fs, d) || fault == CreateFault {
        return Err(CreateFailed), ev;
      }
      var (preferred, version) := env.allocate(trace);
      FreshNodeExists(fs.files.Keys, preferred);
      var node: nat :| node !in fs.files && (preferred !in fs.files ==> node == preferred);
      var written := if fault.WriteFault? && fault.written < |bytes| then fault.written else |bytes|;
      var before := fs;
      fs := WithFile(before, d, name, node, FileData(bytes[..written], version, 1));
      ev := [Created(name, node, before, fs)];
      FaithfulSnoc(env, trace, ev[0]);
      trace := trace + [Created(name, node, before, fs)];
      ChainedOne(ev[0]);
      if fault != NoFault {
        return Err(WriteFailed), ev;
      }
      var reread := ReadAt(fs, d, name, |bytes|);
      if reread.Err? {
        return Err(reread.error), ev;
      }
      ReadIsHeld(fs, d, name, |bytes|);
      return if reread.value.node == node && reread.value.bytes == bytes then reread else Err(WriteIdentityDrift), ev;
    }
  }

  lemma FreshNodeExists(nodes: set<Node>, preferred: Node)
    ensures exists n: Node :: n !in nodes && (preferred !in nodes ==> n == preferred)
  {
    if preferred in nodes {
      var bound := BoundOf(nodes);
      assert bound !in nodes;
    }
  }

  lemma {:induction false} BoundOf(nodes: set<Node>) returns (bound: Node)
    ensures forall n :: n in nodes ==> n < bound
  {
    if nodes == {} {
      bound := 0;
    } else {
      var m :| m in nodes;
      var b := BoundOf(nodes - {m});
      bound := if b > m then b else m + 1;
      forall n | n in nodes ensures n < bound {
        if n != m { assert n in nodes - {m}; }
      }
    }
  }
}
