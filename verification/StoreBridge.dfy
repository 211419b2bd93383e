/** What the files that the two publication protocols leave on disk amount to as a `Store` of `Workspace`, and why that
    store only ever grows. */
module StoreBridge {
  import opened Wrappers
  import opened Bytes
  import opened StoreReadable
  import opened Workspace
  import AdmissionRegistry
  import ContentStore
  import Descriptors
  import RecordPublication
  import StoreSafety

  // ----- objects and artifact records -----

  function ObjectsOf(s: ContentStore.State): map<Digest, seq<byte>> {
    map n | n in s.names && n.ObjectName? && Readable(s, n) :: n.digest := s.files[s.names[n]]
  }

  function ArtifactsOf(env: ContentStore.Env, s: ContentStore.State): map<string, Descriptors.ArtifactRecord> {
    map n | n in s.names && n.RecordName? && Readable(s, n) && env.parseRecord(s.files[s.names[n]]).Some? ::
      n.id := env.parseRecord(s.files[s.names[n]]).value
  }

  /** Whatever fails, what can be read of objects and artifact records can be read, unchanged, in every continuation: a
      rollback removes a name only while its file has two. */
  lemma ArtifactsOnlyGrow(env: ContentStore.Env, s: ContentStore.State, events: seq<ContentStore.Event>,
                          s': ContentStore.State)
    requires ContentStore.ValidEnv(env) && StoreSafety.Inv(env, s)
    requires ContentStore.Run(env, s, events) == Some(s')
    ensures Keeps(ObjectsOf(s), ObjectsOf(s')) && Keeps(ArtifactsOf(env, s), ArtifactsOf(env, s'))
  {
    hide ContentStore.Run, StoreSafety.Inv, ContentStore.ValidEnv, ContentStore.LinkCount;
    forall n | n in s.names && !n.TempName? && Readable(s, n)
      ensures StaysReadable(s, s', n)
    {
      ReadableStaysInRun(env, s, events, s', n);
    }
    hide Readable;
    ObjectsKept(s, s');
    ArtifactsKept(env, s, s');
  }

  ghost predicate ReadableKept(s: ContentStore.State, s': ContentStore.State) {
    forall n | n in s.names && !n.TempName? && Readable(s, n) :: StaysReadable(s, s', n)
  }

  lemma ObjectsKept(s: ContentStore.State, s': ContentStore.State)
    requires ReadableKept(s, s')
    ensures Keeps(ObjectsOf(s), ObjectsOf(s'))
  {
    hide ContentStore.LinkCount;
    forall digest | digest in ObjectsOf(s)
      ensures digest in ObjectsOf(s') && ObjectsOf(s')[digest] == ObjectsOf(s)[digest]
    {
      assert Readable(s, ContentStore.ObjectName(digest));
    }
  }

  lemma ArtifactsKept(env: ContentStore.Env, s: ContentStore.State, s': ContentStore.State)
    requires ReadableKept(s, s')
    ensures Keeps(ArtifactsOf(env, s), ArtifactsOf(env, s'))
  {
    hide ContentStore.LinkCount;
    forall id | id in ArtifactsOf(env, s)
      ensures id in ArtifactsOf(env, s') && ArtifactsOf(env, s')[id] == ArtifactsOf(env, s)[id]
    {
      assert Readable(s, ContentStore.RecordName(id));
    }
  }

  // ----- the other registries -----

  /** The files of one registry that decode. */
  function Decoded<T>(table: map<RecordPublication.Path, seq<byte>>, registry: RecordPublication.Registry,
                      parse: seq<byte> -> Option<T>): map<string, T> {
    map path | path in table && path.registry == registry && parse(table[path]).Some? ::
      path.id := parse(table[path]).value
  }

  lemma DecodedGrows<T>(table: map<RecordPublication.Path, seq<byte>>, next: map<RecordPublication.Path, seq<byte>>,
                        registry: RecordPublication.Registry, parse: seq<byte> -> Option<T>)
    requires Keeps(table, next)
    ensures Keeps(Decoded(table, registry, parse), Decoded(next, registry, parse))
  {
    forall id | id in Decoded(table, registry, parse)
      ensures id in Decoded(next, registry, parse)
      ensures Decoded(next, registry, parse)[id] == Decoded(table, registry, parse)[id]
    {
      assert RecordPublication.Path(registry, id) in table;
    }
  }

  // ----- the whole disk -----

  // What `read_strict_json` makes of the text of a record file.
  datatype Codecs = Codecs(
    plan: seq<byte> -> Option<PlanRecord>,
    run: seq<byte> -> Option<RunRecord>,
    handoff: seq<byte> -> Option<HandoffRecord>,
    qualification: seq<byte> -> Option<QualificationRecord>,
    capsule: seq<byte> -> Option<CapsuleRecord>,
    inventory: seq<byte> -> Option<InventoryRecord>,
    admission: seq<byte> -> Option<AdmissionRegistry.Record>)

  datatype Protocols = Protocols(artifacts: ContentStore.Env, records: RecordPublication.Env, codecs: Codecs)

  // The two protocols share neither names nor files, so an interleaving of both is a run of each.
  datatype Disk = Disk(artifacts: ContentStore.State, records: RecordPublication.State)

  const INIT := Disk(ContentStore.INIT, RecordPublication.INIT)

  function StoreOf(e: Protocols, d: Disk): Store {
    var table := RecordPublication.Table(d.records);
    Store(ObjectsOf(d.artifacts), ArtifactsOf(e.artifacts, d.artifacts),
          Decoded(table, RecordPublication.Plans, e.codecs.plan),
          Decoded(table, RecordPublication.Runs, e.codecs.run),
          Decoded(table, RecordPublication.Handoffs, e.codecs.handoff),
          Decoded(table, RecordPublication.Qualifications, e.codecs.qualification),
          Decoded(table, RecordPublication.Capsules, e.codecs.capsule),
          Decoded(table, RecordPublication.Inventories, e.codecs.inventory),
          Decoded(table, RecordPublication.Admissions, e.codecs.admission),
          Decoded(table, RecordPublication.Staged, (bytes: seq<byte>) => Some(bytes)))
  }

  ghost predicate Continues(e: Protocols, d: Disk, d': Disk) {
    && (exists events :: ContentStore.Run(e.artifacts, d.artifacts, events) == Some(d'.artifacts))
    && (exists events :: RecordPublication.Run(e.records, d.records, events) == Some(d'.records))
  }

  ghost predicate Reached(e: Protocols, d: Disk) {
    Continues(e, INIT, d)
  }

  // The file of an artifact record reads back as it was written.
  ghost predicate ReadsBack(e: Protocols) {
    ContentStore.ValidEnv(e.artifacts)
  }

  lemma ReachedIsSound(e: Protocols, d: Disk)
    requires ReadsBack(e) && Reached(e, d)
    ensures StoreSafety.Inv(e.artifacts, d.artifacts) && RecordPublication.Inv(e.records, d.records)
  {
    var events :| ContentStore.Run(e.artifacts, INIT.artifacts, events) == Some(d.artifacts);
    assert StoreSafety.Inv(e.artifacts, ContentStore.INIT);
    StoreSafety.InvRun(e.artifacts, ContentStore.INIT, events, d.artifacts);
    var others :| RecordPublication.Run(e.records, INIT.records, others) == Some(d.records);
    assert RecordPublication.Inv(e.records, RecordPublication.INIT);
    RecordPublication.InvRun(e.records, RecordPublication.INIT, others, d.records);
  }

  lemma ContinuesIsTransitive(e: Protocols, d: Disk, d': Disk, d'': Disk)
    requires Continues(e, d, d') && Continues(e, d', d'')
    ensures Continues(e, d, d'')
  {
    hide ContentStore.Run, RecordPublication.Run;
    var a :| ContentStore.Run(e.artifacts, d.artifacts, a) == Some(d'.artifacts);
    var b :| ContentStore.Run(e.artifacts, d'.artifacts, b) == Some(d''.artifacts);
    ContentStore.RunsCompose(e.artifacts, d.artifacts, a, d'.artifacts, b, d''.artifacts);
    var f :| RecordPublication.Run(e.records, d.records, f) == Some(d'.records);
    var g :| RecordPublication.Run(e.records, d'.records, g) == Some(d''.records);
    RecordPublication.RunsCompose(e.records, d.records, f, d'.records, g, d''.records);
  }

  lemma TableOnlyGrows(e: Protocols, d: Disk, d': Disk)
    requires ReadsBack(e) && Reached(e, d) && Continues(e, d, d')
    ensures Keeps(RecordPublication.Table(d.records), RecordPublication.Table(d'.records))
  {
    ReachedIsSound(e, d);
    hide RecordPublication.Inv, StoreSafety.Inv, ContentStore.ValidEnv, RecordPublication.Table, Reached;
    var events :| RecordPublication.Run(e.records, d.records, events) == Some(d'.records);
    forall path | path in RecordPublication.Table(d.records)
      ensures path in RecordPublication.Table(d'.records)
      ensures RecordPublication.Table(d'.records)[path] == RecordPublication.Table(d.records)[path]
    {
      RecordPublication.RecordsAreWriteOnce(e.records, d.records, events, d'.records, path);
    }
  }

  /** The store that the disk amounts to only grows: whatever any processes do, in any interleaving and with every
      fault, nothing that could be read is lost or changed. */
  lemma StoreOnlyGrows(e: Protocols, d: Disk, d': Disk)
    requires ReadsBack(e) && Reached(e, d) && Continues(e, d, d')
    ensures Extends(StoreOf(e, d), StoreOf(e, d'))
  {
    ReachedIsSound(e, d);
    TableOnlyGrows(e, d, d');
    hide RecordPublication.Inv, StoreSafety.Inv, ContentStore.ValidEnv, RecordPublication.Table, Reached,
      RecordPublication.Run, ContentStore.Run, Keeps, Decoded, ObjectsOf, ArtifactsOf;
    var events :| ContentStore.Run(e.artifacts, d.artifacts, events) == Some(d'.artifacts);
    ArtifactsOnlyGrow(e.artifacts, d.artifacts, events, d'.artifacts);
    var table, next := RecordPublication.Table(d.records), RecordPublication.Table(d'.records);
    DecodedGrows(table, next, RecordPublication.Plans, e.codecs.plan);
    DecodedGrows(table, next, RecordPublication.Runs, e.codecs.run);
    DecodedGrows(table, next, RecordPublication.Handoffs, e.codecs.handoff);
    DecodedGrows(table, next, RecordPublication.Qualifications, e.codecs.qualification);
    DecodedGrows(table, next, RecordPublication.Capsules, e.codecs.capsule);
    DecodedGrows(table, next, RecordPublication.Inventories, e.codecs.inventory);
    DecodedGrows(table, next, RecordPublication.Admissions, e.codecs.admission);
    DecodedGrows(table, next, RecordPublication.Staged, (bytes: seq<byte>) => Some(bytes));
  }

  // ----- what the store holds -----

  // The entry of the registry that the bytes of a record file stand for is there.
  ghost predicate HoldsRecord(e: Protocols, s: Store, registry: RecordPublication.Registry, id: string,
                              text: seq<byte>)
  {
    match registry
    case Plans => Holds(s.plans, id, e.codecs.plan(text))
    case Runs => Holds(s.runs, id, e.codecs.run(text))
    case Handoffs => Holds(s.handoffs, id, e.codecs.handoff(text))
    case Qualifications => Holds(s.qualifications, id, e.codecs.qualification(text))
    case Capsules => Holds(s.capsules, id, e.codecs.capsule(text))
    case Inventories => Holds(s.inventories, id, e.codecs.inventory(text))
    case Admissions => Holds(s.admissions, id, e.codecs.admission(text))
    case Staged => id in s.staged && s.staged[id] == text
  }

  ghost predicate Holds<T>(m: map<string, T>, id: string, entry: Option<T>) {
    if entry.None? then id !in m else id in m && m[id] == entry.value
  }

  lemma DecodedHolds<T>(table: map<RecordPublication.Path, seq<byte>>, registry: RecordPublication.Registry, id: string,
                        parse: seq<byte> -> Option<T>)
    requires RecordPublication.Path(registry, id) in table
    ensures Holds(Decoded(table, registry, parse), id, parse(table[RecordPublication.Path(registry, id)]))
  {
  }

  lemma FileIsHeld(e: Protocols, d: Disk, path: RecordPublication.Path)
    requires path in RecordPublication.Table(d.records)
    ensures HoldsRecord(e, StoreOf(e, d), path.registry, path.id, RecordPublication.Table(d.records)[path])
  {
    var table := RecordPublication.Table(d.records);
    hide RecordPublication.Table, Decoded, Holds, ObjectsOf, ArtifactsOf;
    assert path == RecordPublication.Path(path.registry, path.id);
    match path.registry
    case Plans => DecodedHolds(table, path.registry, path.id, e.codecs.plan);
    case Runs => DecodedHolds(table, path.registry, path.id, e.codecs.run);
    case Handoffs => DecodedHolds(table, path.registry, path.id, e.codecs.handoff);
    case Qualifications => DecodedHolds(table, path.registry, path.id, e.codecs.qualification);
    case Capsules => DecodedHolds(table, path.registry, path.id, e.codecs.capsule);
    case Inventories => DecodedHolds(table, path.registry, path.id, e.codecs.inventory);
    case Admissions => DecodedHolds(table, path.registry, path.id, e.codecs.admission);
    case Staged => StagedHolds(table, path.id);
  }

  lemma StagedHolds(table: map<RecordPublication.Path, seq<byte>>, id: string)
    requires RecordPublication.Path(RecordPublication.Staged, id) in table
    ensures var staged := Decoded(table, RecordPublication.Staged, (bytes: seq<byte>) => Some(bytes));
      id in staged && staged[id] == table[RecordPublication.Path(RecordPublication.Staged, id)]
  {
    DecodedHolds(table, RecordPublication.Staged, id, (bytes: seq<byte>) => Some(bytes));
  }

  /** A record or staged file that a process wrote with success is in the store, under its registry and its identifier,
      as what its text decodes to, from then on: in the state it returned in and in every continuation. */
  lemma WrittenIsInTheStore(e: Protocols, d: Disk, d': Disk, p: RecordPublication.Pid)
    requires ReadsBack(e) && Reached(e, d) && Continues(e, d, d')
    requires p in d.records.procs && d.records.procs[p] == RecordPublication.Returned(true)
    ensures var job := e.records.jobs(p);
      HoldsRecord(e, StoreOf(e, d'), job.path.registry, job.path.id, job.text)
  {
    TableOnlyGrows(e, d, d');
    var events :| RecordPublication.Run(e.records, RecordPublication.INIT, events) == Some(d.records);
    RecordPublication.SuccessIsInTheTable(e.records, events, d.records, p);
    hide RecordPublication.Table, RecordPublication.Run, StoreOf, HoldsRecord, Reached, Continues, ReadsBack;
    FileIsHeld(e, d', e.records.jobs(p).path);
  }

  ghost predicate WroteRecord(e: Protocols, p: RecordPublication.Pid, registry: RecordPublication.Registry,
                              id: string)
  {
    e.records.jobs(p).path == RecordPublication.Path(registry, id)
  }

  // Every entry of the decoded registry is one process's decoded text.
  ghost predicate AllWritten<T>(e: Protocols, m: map<string, T>, registry: RecordPublication.Registry,
                                parse: seq<byte> -> Option<T>)
  {
    forall id | id in m ::
      exists p :: WroteRecord(e, p, registry, id) && parse(e.records.jobs(p).text) == Some(m[id])
  }

  lemma DecodedIsWritten<T>(e: Protocols, d: Disk, registry: RecordPublication.Registry, parse: seq<byte> -> Option<T>)
    requires Reached(e, d)
    ensures AllWritten(e, Decoded(RecordPublication.Table(d.records), registry, parse), registry, parse)
  {
    var events :| RecordPublication.Run(e.records, RecordPublication.INIT, events) == Some(d.records);
    hide RecordPublication.Run, Reached;
    forall id | id in Decoded(RecordPublication.Table(d.records), registry, parse)
      ensures exists p :: WroteRecord(e, p, registry, id) && parse(e.records.jobs(p).text) ==
                          Some(Decoded(RecordPublication.Table(d.records), registry, parse)[id])
    {
      var path := RecordPublication.Path(registry, id);
      RecordPublication.NamesDenoteWholeRecords(e.records, events, d.records, path);
      assert WroteRecord(e, d.records.names[path], registry, id);
    }
  }

  /** The store holds nothing but what some process wrote under that name, decoded whole. */
  lemma StoreHoldsWhatWasWritten(e: Protocols, d: Disk)
    requires Reached(e, d)
    ensures var s := StoreOf(e, d);
      && AllWritten(e, s.plans, RecordPublication.Plans, e.codecs.plan)
      && AllWritten(e, s.runs, RecordPublication.Runs, e.codecs.run)
      && AllWritten(e, s.handoffs, RecordPublication.Handoffs, e.codecs.handoff)
      && AllWritten(e, s.qualifications, RecordPublication.Qualifications, e.codecs.qualification)
      && AllWritten(e, s.capsules, RecordPublication.Capsules, e.codecs.capsule)
      && AllWritten(e, s.inventories, RecordPublication.Inventories, e.codecs.inventory)
      && AllWritten(e, s.admissions, RecordPublication.Admissions, e.codecs.admission)
      && AllWritten(e, s.staged, RecordPublication.Staged, (bytes: seq<byte>) => Some(bytes))
  {
    hide Reached, AllWritten, Decoded, ObjectsOf, ArtifactsOf;
    DecodedIsWritten(e, d, RecordPublication.Plans, e.codecs.plan);
    DecodedIsWritten(e, d, RecordPublication.Runs, e.codecs.run);
    DecodedIsWritten(e, d, RecordPublication.Handoffs, e.codecs.handoff);
    DecodedIsWritten(e, d, RecordPublication.Qualifications, e.codecs.qualification);
    DecodedIsWritten(e, d, RecordPublication.Capsules, e.codecs.capsule);
    DecodedIsWritten(e, d, RecordPublication.Inventories, e.codecs.inventory);
    DecodedIsWritten(e, d, RecordPublication.Admissions, e.codecs.admission);
    DecodedIsWritten(e, d, RecordPublication.Staged, (bytes: seq<byte>) => Some(bytes));
  }
}
