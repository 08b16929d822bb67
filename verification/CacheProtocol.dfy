// Loading and storing parses beside a source that may be edited at any moment (load_or_parse and
// validate_selected in the driver; load_hash, load_keyed, store_path and store_hash in
// workspace.rs; write_atomically in io.rs).
//
// Every file operation is one step, so the steps of any number of jobs, editors and pruners
// interleave freely and every read or write may fail. Parsing is kept symbolic: `TreeOf(text)`
// and `ErrorsOf(text)` stand for what the parser makes of `text`.
module CacheProtocol {
  import opened Wrappers

  type Path = nat

  // What a `stat` of a source gives: the hash of its path, size, times and inode.
  type Stamp = nat

  datatype Tree = TreeOf(text: string)
  datatype Errors = ErrorsOf(text: string) | NoErrors
  datatype ParsedFile = ParsedFile(tree: Tree, errors: Errors)

  function Parse(text: string): ParsedFile { ParsedFile(TreeOf(text), ErrorsOf(text)) }

  // The name a cache entry is filed under.
  datatype Key = ByMetadata(stamp: Stamp) | ByContent(text: string)

  datatype Source = Source(text: string, stamp: Stamp)

  // The `.cwe` file beside an archive; `meta` is the text its `SourceMeta` was taken from.
  datatype Sidecar = Sidecar(errors: Errors, meta: Option<string>)

  // `issued` remembers which content each stamp was handed out for.
  datatype World = World(
    sources: map<Path, Source>,
    issued: map<Stamp, string>,
    archives: map<Key, Tree>,
    sidecars: map<Key, Sidecar>)

  // `supported` says that entries may be filed under metadata (Unix); `steady` that no source goes back
  // to an old stamp under a job that has read something else since it saw that stamp.
  datatype Env = Env(supported: bool, steady: bool)

  datatype Use = Full | Index

  datatype Fingerprint = Fingerprint(metadata: Option<Stamp>, content: Option<string>) {
    // Something in the fingerprint identifies the bytes.
    predicate Identifies() { metadata.Some? || content.Some? }
  }

  // `text` records the bytes the parse was made from.
  datatype Outcome = Loaded(parsed: ParsedFile, fingerprint: Fingerprint, text: string) | Changed | Failed

  datatype Pc =
    | Start
    | Lookup
    | HaveKey(stamp: Stamp)
    | HaveTree(stamp: Stamp, tree: Tree)
    | HaveEntry(stamp: Stamp, parsed: ParsedFile, complete: bool)
    | Missed
    | Statted(metadata: Option<Stamp>)
    | HaveText(metadata: Option<Stamp>, text: string)
    | HaveContentTree(metadata: Option<Stamp>, text: string, tree: Tree)
    | Ready(metadata: Option<Stamp>, text: string, parsed: ParsedFile, hit: bool)
    | Checked(fingerprint: Fingerprint, text: string, parsed: ParsedFile, hit: bool)
    | Storing(key: Key, fingerprint: Fingerprint, text: string, parsed: ParsedFile)
    | WroteArchive(key: Key, fingerprint: Fingerprint, text: string, parsed: ParsedFile)
    | SidecarFailed(key: Key, fingerprint: Fingerprint, text: string, parsed: ParsedFile)
    | ArchiveUndone(key: Key, fingerprint: Fingerprint, text: string, parsed: ParsedFile)
    | Done(outcome: Outcome)

  // One call of load_or_parse; with `expected` it is validate_selected checking a file against
  // the fingerprint recorded when the file was indexed.
  datatype Job = Job(path: Path, use: Use, expected: Option<Fingerprint>, pc: Pc)

  datatype State = State(world: World, jobs: map<nat, Job>)

  // How the step a job takes next turns out: `ok` when its operation succeeds, `lost` when a
  // failing replacement leaves the destination missing (Windows).
  datatype Choice = Choice(ok: bool, lost: bool)

  datatype Event =
    | Edit(path: Path, text: string, stamp: Stamp)
    | Delete(path: Path)
    | EvictArchive(key: Key)
    | EvictSidecar(key: Key)
    | Spawn(id: nat, path: Path, use: Use, expected: Option<Fingerprint>)
    | Run(id: nat, choice: Choice)

  // ------------------------------------------------------------------ the steps

  function Stat(w: World, path: Path): Option<Stamp> {
    if path in w.sources then Some(w.sources[path].stamp) else None
  }

  // Content keys are used when metadata keys are not, or when the source could not be statted.
  predicate UsesContent(env: Env, metadata: Option<Stamp>) { !env.supported || metadata.None? }

  function Finish(job: Job, fingerprint: Fingerprint, text: string, parsed: ParsedFile): Pc {
    if job.expected.Some? && fingerprint != job.expected.value then Done(Changed)
    else Done(Loaded(parsed, fingerprint, text))
  }

  function StepJob(env: Env, w: World, job: Job, c: Choice): (World, Pc) {
    match job.pc
    case Start =>
      if job.expected.Some? && Stat(w, job.path) != job.expected.value.metadata then (w, Done(Changed))
      else (w, Lookup)
    case Lookup =>
      var stamp := Stat(w, job.path);
      if env.supported && c.ok && stamp.Some? then (w, HaveKey(stamp.value)) else (w, Missed)
    case HaveKey(stamp) =>
      var key := ByMetadata(stamp);
      if c.ok && key in w.archives then
        match job.use
        case Full => (w, HaveTree(stamp, w.archives[key]))
        case Index => (w, HaveEntry(stamp, ParsedFile(w.archives[key], NoErrors), true))
      else (w, Missed)
    case HaveTree(stamp, tree) =>
      var key := ByMetadata(stamp);
      if c.ok && key in w.sidecars then
        (w, HaveEntry(stamp, ParsedFile(tree, w.sidecars[key].errors), w.sidecars[key].meta.Some?))
      else (w, Missed)
    case HaveEntry(stamp, parsed, complete) =>
      if Stat(w, job.path) == Some(stamp) && complete then
        (w, Finish(job, Fingerprint(Some(stamp), None), w.sources[job.path].text, parsed))
      else (w, Missed)
    case Missed => (w, Statted(Stat(w, job.path)))
    case Statted(metadata) =>
      if c.ok && job.path in w.sources then (w, HaveText(metadata, w.sources[job.path].text))
      else (w, Done(Failed))
    case HaveText(metadata, text) =>
      var key := ByContent(text);
      if UsesContent(env, metadata) && c.ok && key in w.archives then
        match job.use
        case Full => (w, HaveContentTree(metadata, text, w.archives[key]))
        case Index => (w, Ready(metadata, text, ParsedFile(w.archives[key], NoErrors), true))
      else (w, Ready(metadata, text, Parse(text), false))
    case HaveContentTree(metadata, text, tree) =>
      var key := ByContent(text);
      if c.ok && key in w.sidecars then
        (w, Ready(metadata, text, ParsedFile(tree, w.sidecars[key].errors), true))
      else (w, Ready(metadata, text, Parse(text), false))
    case Ready(metadata, text, parsed, hit) =>
      var kept := if metadata.Some? && Stat(w, job.path) == metadata then metadata else None;
      var content := if UsesContent(env, metadata) then Some(text) else None;
      (w, Checked(Fingerprint(kept, content), text, parsed, hit))
    case Checked(fingerprint, text, parsed, hit) =>
      if hit || !c.ok then (w, Finish(job, fingerprint, text, parsed))
      else if fingerprint.metadata.Some? && env.supported then
        if Stat(w, job.path) == fingerprint.metadata then
          (w, Storing(ByMetadata(fingerprint.metadata.value), fingerprint, text, parsed))
        else (w, Finish(job, fingerprint, text, parsed))
      else (w, Storing(ByContent(text), fingerprint, text, parsed))
    case Storing(key, fingerprint, text, parsed) =>
      if c.ok then (w.(archives := w.archives[key := parsed.tree]), WroteArchive(key, fingerprint, text, parsed))
      else (if c.lost then w.(archives := w.archives - {key}) else w, Finish(job, fingerprint, text, parsed))
    case WroteArchive(key, fingerprint, text, parsed) =>
      var sidecar := Sidecar(parsed.errors, if key.ByMetadata? then Some(text) else None);
      if c.ok then (w.(sidecars := w.sidecars[key := sidecar]), Finish(job, fingerprint, text, parsed))
      else
        (if c.lost then w.(sidecars := w.sidecars - {key}) else w, SidecarFailed(key, fingerprint, text, parsed))
    case SidecarFailed(key, fingerprint, text, parsed) =>
      (if c.ok then w.(archives := w.archives - {key}) else w, ArchiveUndone(key, fingerprint, text, parsed))
    case ArchiveUndone(key, fingerprint, text, parsed) =>
      (if c.ok then w.(sidecars := w.sidecars - {key}) else w, Finish(job, fingerprint, text, parsed))
    case Done(_) => (w, job.pc)
  }

  // The job took the stamp, then read something else than `text`, and has not looked again yet.
  predicate Misread(job: Job, path: Path, stamp: Stamp, text: string) {
    && job.path == path
    && (job.pc.HaveText? || job.pc.HaveContentTree? || job.pc.Ready?)
    && job.pc.metadata == Some(stamp) && job.pc.text != text
  }

  // A source gets the stamp, with the text that had it, while a job has misread under it.
  predicate Disturbs(s: State, path: Path, text: string, stamp: Stamp) {
    exists id | id in s.jobs :: Misread(s.jobs[id], path, stamp, text)
  }

  // An edit takes a stamp no source ever had, or restores one together with the content that had it:
  // a symbolic link is flipped back, a directory renamed away and back.
  predicate Enabled(env: Env, s: State, e: Event) {
    match e
    case Edit(path, text, stamp) =>
      || stamp !in s.world.issued
      || (s.world.issued[stamp] == text && (env.steady ==> !Disturbs(s, path, text, stamp)))
    case Spawn(id, _, _, _) => id !in s.jobs
    case Run(id, _) => id in s.jobs
    case _ => true
  }

  function Apply(env: Env, s: State, e: Event): State
    requires Enabled(env, s, e)
  {
    var w := s.world;
    match e
    case Edit(path, text, stamp) =>
      s.(world := w.(sources := w.sources[path := Source(text, stamp)], issued := w.issued[stamp := text]))
    case Delete(path) => s.(world := w.(sources := w.sources - {path}))
    case EvictArchive(key) => s.(world := w.(archives := w.archives - {key}))
    case EvictSidecar(key) => s.(world := w.(sidecars := w.sidecars - {key}))
    case Spawn(id, path, use, expected) => s.(jobs := s.jobs[id := Job(path, use, expected, Start)])
    case Run(id, choice) =>
      var (w', pc') := StepJob(env, w, s.jobs[id], choice);
      State(w', s.jobs[id := s.jobs[id].(pc := pc')])
  }

  const INITIAL := State(World(map[], map[], map[], map[]), map[])

  ghost predicate Reaches(env: Env, s: State, events: seq<Event>, t: State)
    decreases |events|
  {
    if events == [] then s == t
    else Enabled(env, s, events[0]) && Reaches(env, Apply(env, s, events[0]), events[1..], t)
  }

  ghost predicate Reachable(env: Env, t: State) {
    exists events :: Reaches(env, INITIAL, events, t)
  }

  // ------------------------------------------------------------------ what every step keeps

  // The content an entry filed under `key` has to be the parse of.
  function Owner(issued: map<Stamp, string>, key: Key): Option<string> {
    match key
    case ByMetadata(stamp) => if stamp in issued then Some(issued[stamp]) else None
    case ByContent(text) => Some(text)
  }

  predicate CacheSound(w: World) {
    && (forall k | k in w.archives :: Owner(w.issued, k) == Some(w.archives[k].text))
    && (forall k | k in w.sidecars ::
          && Owner(w.issued, k).Some?
          && w.sidecars[k].errors == ErrorsOf(Owner(w.issued, k).value)
          && (w.sidecars[k].meta.Some? ==> w.sidecars[k].meta == Owner(w.issued, k)))
  }

  predicate SourcesKnown(w: World) {
    forall p | p in w.sources ::
      w.sources[p].stamp in w.issued && w.issued[w.sources[p].stamp] == w.sources[p].text
  }

  predicate ParsedOk(use: Use, parsed: ParsedFile, text: string) {
    parsed.tree == TreeOf(text) && (use == Full ==> parsed.errors == ErrorsOf(text))
  }

  predicate Had(w: World, stamp: Stamp, text: string) {
    stamp in w.issued && w.issued[stamp] == text
  }

  // While the source still carries the stamp taken before it was read, what was read is what had
  // that stamp.
  predicate ReadOk(env: Env, w: World, path: Path, metadata: Option<Stamp>, text: string) {
    metadata.Some? ==>
      && metadata.value in w.issued
      && (env.steady && Stat(w, path) == metadata ==> Had(w, metadata.value, text))
  }

  predicate FingerprintOk(env: Env, w: World, fingerprint: Fingerprint, text: string) {
    && (env.steady && fingerprint.metadata.Some? ==> Had(w, fingerprint.metadata.value, text))
    && (fingerprint.content.Some? ==> fingerprint.content.value == text)
    && (!env.supported ==> fingerprint.content.Some?)
  }

  predicate JobOk(env: Env, w: World, job: Job) {
    match job.pc
    case Start => true
    case Lookup => true
    case Missed => true
    case HaveKey(stamp) => env.supported && stamp in w.issued
    case HaveTree(stamp, tree) => env.supported && Had(w, stamp, tree.text) && job.use == Full
    case HaveEntry(stamp, parsed, _) =>
      env.supported && stamp in w.issued && ParsedOk(job.use, parsed, w.issued[stamp])
    case Statted(metadata) => metadata.Some? ==> metadata.value in w.issued
    case HaveText(metadata, text) => ReadOk(env, w, job.path, metadata, text)
    case HaveContentTree(metadata, text, tree) =>
      && ReadOk(env, w, job.path, metadata, text)
      && UsesContent(env, metadata) && tree == TreeOf(text) && job.use == Full
    case Ready(metadata, text, parsed, hit) =>
      && ReadOk(env, w, job.path, metadata, text)
      && ParsedOk(job.use, parsed, text) && (!hit ==> parsed == Parse(text))
      && (hit ==> UsesContent(env, metadata))
    case Checked(fingerprint, text, parsed, hit) =>
      && FingerprintOk(env, w, fingerprint, text)
      && ParsedOk(job.use, parsed, text) && (!hit ==> parsed == Parse(text))
    case Storing(key, fingerprint, text, parsed) => StoringOk(env, w, job, key, fingerprint, text, parsed)
    case WroteArchive(key, fingerprint, text, parsed) => StoringOk(env, w, job, key, fingerprint, text, parsed)
    case SidecarFailed(key, fingerprint, text, parsed) => StoringOk(env, w, job, key, fingerprint, text, parsed)
    case ArchiveUndone(key, fingerprint, text, parsed) => StoringOk(env, w, job, key, fingerprint, text, parsed)
    case Done(Loaded(parsed, fingerprint, text)) =>
      FingerprintOk(env, w, fingerprint, text) && ParsedOk(job.use, parsed, text)
    case Done(_) => true
  }

  predicate StoringOk(
    env: Env, w: World, job: Job, key: Key, fingerprint: Fingerprint, text: string, parsed: ParsedFile)
  {
    && FingerprintOk(env, w, fingerprint, text)
    && parsed == Parse(text)
    && Owner(w.issued, key) == Some(text)
  }

  predicate Inv(env: Env, s: State) {
    && SourcesKnown(s.world)
    && CacheSound(s.world)
    && forall id | id in s.jobs :: JobOk(env, s.world, s.jobs[id])
  }

  // Entries under metadata keys can only be trusted where no stamp comes back under a misread.
  predicate Trusted(env: Env) { env.steady || !env.supported }

  // Up to the moment a job decides to store, it only reads the cache.
  predicate OnlyReads(pc: Pc) { !pc.Storing? && !pc.WroteArchive? && !pc.SidecarFailed? && !pc.ArchiveUndone? }

  // The steps of a load by metadata key.
  predicate LoadsByKey(pc: Pc) { pc.Start? || pc.Lookup? || pc.HaveKey? || pc.HaveTree? || pc.HaveEntry? }

  lemma KeyedStepKeeps(env: Env, w: World, job: Job, c: Choice)
    requires Trusted(env) && SourcesKnown(w) && CacheSound(w) && JobOk(env, w, job)
    requires LoadsByKey(job.pc)
    ensures var (w', pc') := StepJob(env, w, job, c);
            w' == w && JobOk(env, w, job.(pc := pc'))
  {
  }

  lemma SourceStepKeeps(env: Env, w: World, job: Job, c: Choice)
    requires Trusted(env) && SourcesKnown(w) && CacheSound(w) && JobOk(env, w, job)
    requires OnlyReads(job.pc) && !LoadsByKey(job.pc)
    ensures var (w', pc') := StepJob(env, w, job, c);
            w' == w && JobOk(env, w, job.(pc := pc'))
  {
  }

  lemma ReadStepKeeps(env: Env, w: World, job: Job, c: Choice)
    requires Trusted(env) && SourcesKnown(w) && CacheSound(w) && JobOk(env, w, job)
    requires OnlyReads(job.pc)
    ensures var (w', pc') := StepJob(env, w, job, c);
            w' == w && JobOk(env, w, job.(pc := pc'))
  {
    if LoadsByKey(job.pc) {
      KeyedStepKeeps(env, w, job, c);
    } else {
      SourceStepKeeps(env, w, job, c);
    }
  }

  lemma EntryChangesKeepSound(w: World, key: Key, text: string, sidecar: Sidecar)
    requires CacheSound(w)
    ensures CacheSound(w.(archives := w.archives - {key})) && CacheSound(w.(sidecars := w.sidecars - {key}))
    ensures Owner(w.issued, key) == Some(text) ==> CacheSound(w.(archives := w.archives[key := TreeOf(text)]))
    ensures Owner(w.issued, key) == Some(text) && sidecar.errors == ErrorsOf(text) &&
            (sidecar.meta.Some? ==> sidecar.meta.value == text) ==>
              CacheSound(w.(sidecars := w.sidecars[key := sidecar]))
  {
  }

  lemma WriteStepKeepsCache(env: Env, w: World, job: Job, c: Choice)
    requires CacheSound(w) && JobOk(env, w, job) && !OnlyReads(job.pc)
    ensures var (w', _) := StepJob(env, w, job, c);
            w'.sources == w.sources && w'.issued == w.issued && CacheSound(w')
  {
    var key, text := job.pc.key, job.pc.text;
    EntryChangesKeepSound(w, key, text, Sidecar(job.pc.parsed.errors, if key.ByMetadata? then Some(text) else None));
  }

  lemma WriteStepKeepsJob(env: Env, w: World, job: Job, c: Choice)
    requires JobOk(env, w, job) && !OnlyReads(job.pc)
    ensures var (w', pc') := StepJob(env, w, job, c);
            JobOk(env, w', job.(pc := pc'))
  {
    var (w', pc') := StepJob(env, w, job, c);
    FactsDependOnSource(env, w, w', job);
  }

  lemma JobStepKeeps(env: Env, w: World, job: Job, c: Choice)
    requires Trusted(env) && SourcesKnown(w) && CacheSound(w) && JobOk(env, w, job)
    ensures var (w', pc') := StepJob(env, w, job, c);
            && w'.sources == w.sources && w'.issued == w.issued
            && CacheSound(w')
            && JobOk(env, w', job.(pc := pc'))
  {
    if OnlyReads(job.pc) {
      ReadStepKeeps(env, w, job, c);
    } else {
      WriteStepKeepsCache(env, w, job, c);
      WriteStepKeepsJob(env, w, job, c);
    }
  }

  // What a job knows depends on the sources only through the stamp its own source carries: it may come
  // to be the one the job saw only if the job has not misread under it.
  lemma FactsDependOnSource(env: Env, w: World, w': World, job: Job)
    requires JobOk(env, w, job)
    requires forall stamp | stamp in w.issued :: stamp in w'.issued && w'.issued[stamp] == w.issued[stamp]
    requires env.steady ==>
               forall stamp | stamp in w.issued && Stat(w', job.path) == Some(stamp) ::
                 Stat(w, job.path) == Some(stamp) || !Misread(job, job.path, stamp, w.issued[stamp])
    ensures JobOk(env, w', job)
  {
  }

  // A job other than the one stepping, or any job while a source changes, keeps its facts: an edit
  // hands out a stamp that no job can be holding, or one under which no job has misread.
  lemma OthersKeep(env: Env, s: State, e: Event, id: nat)
    requires Trusted(env) && Enabled(env, s, e) && id in s.jobs && JobOk(env, s.world, s.jobs[id])
    requires SourcesKnown(s.world)
    ensures JobOk(env, Apply(env, s, e).world, s.jobs[id])
  {
    var t := Apply(env, s, e);
    var job := s.jobs[id];
    if e.Run? {
      assert t.world.sources == s.world.sources && t.world.issued == s.world.issued;
    }
    FactsDependOnSource(env, s.world, t.world, job);
  }

  lemma StepKeepsInv(env: Env, s: State, e: Event)
    requires Trusted(env) && Enabled(env, s, e) && Inv(env, s)
    ensures Inv(env, Apply(env, s, e))
  {
    var t := Apply(env, s, e);
    forall id | id in t.jobs
      ensures JobOk(env, t.world, t.jobs[id])
    {
      if e.Run? && e.id == id {
        JobStepKeeps(env, s.world, s.jobs[id], e.choice);
      } else if id in s.jobs {
        OthersKeep(env, s, e, id);
      }
    }
    if e.Run? {
      JobStepKeeps(env, s.world, s.jobs[e.id], e.choice);
    }
  }

  lemma {:induction false} RunKeepsInv(env: Env, s: State, events: seq<Event>, t: State)
    requires Trusted(env) && Inv(env, s) && Reaches(env, s, events, t)
    ensures Inv(env, t)
    decreases |events|
  {
    if events != [] {
      StepKeepsInv(env, s, events[0]);
      RunKeepsInv(env, Apply(env, s, events[0]), events[1..], t);
    }
  }

  lemma ReachableInv(env: Env, t: State)
    requires Trusted(env) && Reachable(env, t)
    ensures Inv(env, t)
  {
    var events :| Reaches(env, INITIAL, events, t);
    RunKeepsInv(env, INITIAL, events, t);
  }

  // ------------------------------------------------------------------ what the cache promises

  lemma {:induction false} RunExtends(env: Env, s: State, events: seq<Event>, t: State, e: Event)
    requires Reaches(env, s, events, t) && Enabled(env, t, e)
    ensures Reaches(env, s, events + [e], Apply(env, t, e))
    decreases |events|
  {
    if events == [] {
      assert (events + [e])[1..] == [];
    } else {
      RunExtends(env, Apply(env, s, events[0]), events[1..], t, e);
      assert (events + [e])[1..] == events[1..] + [e];
    }
  }

  lemma Go(env: Env, s: State, e: Event) returns (t: State)
    requires Reachable(env, s) && Enabled(env, s, e)
    ensures Reachable(env, t) && t == Apply(env, s, e)
  {
    var events :| Reaches(env, INITIAL, events, s);
    RunExtends(env, INITIAL, events, s, e);
    t := Apply(env, s, e);
  }

  // A hit is the parse of the bytes the source holds when it is statted for the last time.
  lemma HitIsCurrent(env: Env, s: State, id: nat, choice: Choice)
    requires Trusted(env) && Reachable(env, s) && id in s.jobs && s.jobs[id].pc.HaveEntry?
    ensures var job := s.jobs[id];
            var pc := Apply(env, s, Run(id, choice)).jobs[id].pc;
            pc.Done? && pc.outcome.Loaded? ==>
              && job.path in s.world.sources
              && ParsedOk(job.use, pc.outcome.parsed, s.world.sources[job.path].text)
              && pc.outcome.fingerprint == Fingerprint(Some(s.world.sources[job.path].stamp), None)
  {
    ReachableInv(env, s);
  }

  predicate HasLoaded(t: State, id: nat, fingerprint: Fingerprint) {
    && id in t.jobs && t.jobs[id].pc.Done? && t.jobs[id].pc.outcome.Loaded?
    && t.jobs[id].pc.outcome.fingerprint == fingerprint
  }

  // Two passes that end with the same identifying fingerprint parsed the same bytes, whichever mix
  // of metadata hits, content hits and fresh parses they took.
  lemma SameFingerprintSameBytes(env: Env, t: State, indexed: nat, validated: nat, fingerprint: Fingerprint)
    requires Trusted(env) && Reachable(env, t)
    requires HasLoaded(t, indexed, fingerprint) && HasLoaded(t, validated, fingerprint)
    requires fingerprint.Identifies() || !env.supported
    ensures var (first, second) := (t.jobs[indexed].pc.outcome, t.jobs[validated].pc.outcome);
            && first.text == second.text
            && ParsedOk(t.jobs[indexed].use, first.parsed, first.text)
            && ParsedOk(t.jobs[validated].use, second.parsed, first.text)
  {
    ReachableInv(env, t);
    assert JobOk(env, t.world, t.jobs[indexed]) && JobOk(env, t.world, t.jobs[validated]);
  }

  const YES := Choice(true, false)
  const NO := Choice(false, false)

  // A job that has statted the source just before it was edited.
  lemma StatBeforeEdit(
    env: Env, s: State, id: nat, before: string, stamp: Stamp, text: string, stamp': Stamp) returns (t: State)
    requires Reachable(env, s) && id in s.jobs && s.jobs[id].pc == Missed
    requires stamp !in s.world.issued && stamp' !in s.world.issued && stamp != stamp'
    ensures Reachable(env, t)
    ensures t.jobs == s.jobs[id := s.jobs[id].(pc := Statted(Some(stamp)))]
    ensures t.world.sources == s.world.sources[s.jobs[id].path := Source(text, stamp')]
    ensures t.world.issued == s.world.issued[stamp := before][stamp' := text]
  {
    var path := s.jobs[id].path;
    var s1 := Go(env, s, Edit(path, before, stamp));
    var s2 := Go(env, s1, Run(id, YES));
    assert s2.jobs[id].pc == Statted(Some(stamp));
    t := Go(env, s2, Edit(path, text, stamp'));
  }

  // A job that statted one content, read `text` and is about to look at the source again.
  lemma ReadPastStat(env: Env, s: State, id: nat, before: string, stamp: Stamp, text: string, stamp': Stamp)
    returns (t: State)
    requires env.supported && Reachable(env, s)
    requires id in s.jobs && s.jobs[id].pc == Missed
    requires stamp !in s.world.issued && stamp' !in s.world.issued && stamp != stamp'
    ensures Reachable(env, t)
    ensures t.jobs == s.jobs[id := s.jobs[id].(pc := Ready(Some(stamp), text, Parse(text), false))]
    ensures t.world.sources == s.world.sources[s.jobs[id].path := Source(text, stamp')]
    ensures t.world.issued == s.world.issued[stamp := before][stamp' := text]
  {
    var s3 := StatBeforeEdit(env, s, id, before, stamp, text, stamp');
    var s4 := Go(env, s3, Run(id, YES));
    assert s4.jobs[id].pc == HaveText(Some(stamp), text);
    t := Go(env, s4, Run(id, YES));
    assert t.jobs[id].pc == Ready(Some(stamp), text, Parse(text), false);
  }

  lemma SpawnMissed(env: Env, s: State, id: nat, expected: Option<Fingerprint>) returns (t: State)
    requires Reachable(env, s) && id !in s.jobs
    requires expected.Some? ==> Stat(s.world, 0) == expected.value.metadata
    ensures Reachable(env, t) && t.world == s.world
    ensures t.jobs == s.jobs[id := Job(0, Full, expected, Missed)]
  {
    var s1 := Go(env, s, Spawn(id, 0, Full, expected));
    var s2 := Go(env, s1, Run(id, YES));
    t := Go(env, s2, Run(id, NO));
  }

  lemma InitialIsReachable(env: Env)
    ensures Reachable(env, INITIAL)
  {
    assert Reaches(env, INITIAL, [], INITIAL);
  }

  // From a parse made under a stamp that is current again to the archive it is filed in.
  lemma ReadyIsFiled(env: Env, origin: State, before: seq<Event>, s: State, id: nat, stamp: Stamp)
    returns (events: seq<Event>, t: State)
    requires env.supported && Reaches(env, origin, before, s)
    requires id in s.jobs && s.jobs[id].pc.Ready? && !s.jobs[id].pc.hit
    requires s.jobs[id].pc.metadata == Some(stamp) == Stat(s.world, s.jobs[id].path)
    ensures Reaches(env, origin, events, t) && t.world.issued == s.world.issued
    ensures ByMetadata(stamp) in t.world.archives
    ensures t.world.archives[ByMetadata(stamp)] == s.jobs[id].pc.parsed.tree
  {
    var (text, parsed) := (s.jobs[id].pc.text, s.jobs[id].pc.parsed);
    var fingerprint := Fingerprint(Some(stamp), None);
    var step := Run(id, YES);
    RunExtends(env, origin, before, s, step);
    var s1 := Apply(env, s, step);
    assert s1.jobs[id].pc == Checked(fingerprint, text, parsed, false);
    RunExtends(env, origin, before + [step], s1, step);
    var s2 := Apply(env, s1, step);
    assert s2.jobs[id].pc == Storing(ByMetadata(stamp), fingerprint, text, parsed);
    RunExtends(env, origin, before + [step] + [step], s2, step);
    events, t := before + [step] + [step] + [step], Apply(env, s2, step);
  }

  // Where a stamp may come back under a misread, a parse can be filed under the wrong one: the source
  // is statted, replaced, read, and restored before it is statted again.
  lemma RestoredStampMisfiles(env: Env) returns (t: State)
    requires !Trusted(env)
    ensures Reachable(env, t)
    ensures ByMetadata(1) in t.world.archives
    ensures t.world.archives[ByMetadata(1)] == TreeOf("b") && Owner(t.world.issued, ByMetadata(1)) == Some("a")
  {
    InitialIsReachable(env);
    var s0 := SpawnMissed(env, INITIAL, 0, None);
    var s1 := ReadPastStat(env, s0, 0, "a", 1, "b", 2);
    var s2 := Go(env, s1, Edit(0, "a", 1));
    var events :| Reaches(env, INITIAL, events, s2);
    events, t := ReadyIsFiled(env, INITIAL, events, s2, 0, 1);
  }

  // Every entry is the parse of the content its key belongs to, in every interleaving, exactly where no
  // edit restores a stamp under a misread or metadata keys are not used at all.
  lemma CacheIsSoundExactly(env: Env)
    ensures (forall t | Reachable(env, t) :: CacheSound(t.world)) <==> Trusted(env)
  {
    if Trusted(env) {
      forall t | Reachable(env, t)
        ensures CacheSound(t.world)
      {
        ReachableInv(env, t);
      }
    } else {
      var t := RestoredStampMisfiles(env);
      assert !CacheSound(t.world);
    }
  }

  ghost predicate CanMisfile(env: Env, s: State) {
    exists events, t :: Reaches(env, s, events, t) && !CacheSound(t.world)
  }

  const STEADY := Env(true, true)
  const ANY := Env(true, false)

  // A misread job whose stamp is current again can go on to file its parse.
  lemma MisreadIsFiled(s: State, id: nat, path: Path, stamp: Stamp, text: string)
    requires id in s.jobs && Misread(s.jobs[id], path, stamp, text) && !s.jobs[id].pc.HaveContentTree?
    requires s.jobs[id].pc.Ready? ==> !s.jobs[id].pc.hit && s.jobs[id].pc.parsed == Parse(s.jobs[id].pc.text)
    requires Had(s.world, stamp, text) && Stat(s.world, path) == Some(stamp)
    ensures CanMisfile(STEADY, s)
  {
    var pc := s.jobs[id].pc;
    if pc.Ready? {
      assert Reaches(STEADY, s, [], s);
      var events, t := ReadyIsFiled(STEADY, s, [], s, id, stamp);
      assert Owner(t.world.issued, ByMetadata(stamp)) == Some(text);
    } else {
      var next := Apply(STEADY, s, Run(id, YES));
      assert next.jobs[id].pc == Ready(Some(stamp), pc.text, Parse(pc.text), false);
      assert Reaches(STEADY, s, [], s);
      RunExtends(STEADY, s, [], s, Run(id, YES));
      var events, t := ReadyIsFiled(STEADY, s, [] + [Run(id, YES)], next, id, stamp);
      assert Owner(t.world.issued, ByMetadata(stamp)) == Some(text);
    }
  }

  // Restoring an old stamp in a reachable state can lead to a misfiled entry exactly when some job has
  // misread under it, and is harmless whenever no job is between its read and its second look.
  lemma RestoringMisfilesExactly(s: State, path: Path, text: string, stamp: Stamp)
    requires Reachable(STEADY, s) && Had(s.world, stamp, text)
    ensures CanMisfile(STEADY, Apply(ANY, s, Edit(path, text, stamp))) <==> Disturbs(s, path, text, stamp)
  {
    var edit := Edit(path, text, stamp);
    var s' := Apply(ANY, s, edit);
    ReachableInv(STEADY, s);
    if Disturbs(s, path, text, stamp) {
      var id :| id in s.jobs && Misread(s.jobs[id], path, stamp, text);
      MisreadIsFiled(s', id, path, stamp, text);
    } else {
      assert s' == Apply(STEADY, s, edit);
      StepKeepsInv(STEADY, s, edit);
      forall events, t | Reaches(STEADY, s', events, t)
        ensures CacheSound(t.world)
      {
        RunKeepsInv(STEADY, s', events, t);
      }
    }
  }

  // ------------------------------------------------------------------ what validation reports

  // A validation that loads its file loads it under the fingerprint it expects.
  predicate Met(job: Job) {
    job.expected.Some? && job.pc.Done? && job.pc.outcome.Loaded? ==>
      job.pc.outcome.fingerprint == job.expected.value
  }

  lemma StepKeepsMet(env: Env, w: World, job: Job, c: Choice)
    requires Met(job)
    ensures Met(job.(pc := StepJob(env, w, job, c).1))
  {
  }

  lemma {:induction false} RunKeepsMet(env: Env, s: State, events: seq<Event>, t: State)
    requires Reaches(env, s, events, t) && forall id | id in s.jobs :: Met(s.jobs[id])
    ensures forall id | id in t.jobs :: Met(t.jobs[id])
    decreases |events|
  {
    if events != [] {
      if events[0].Run? {
        StepKeepsMet(env, s.world, s.jobs[events[0].id], events[0].choice);
      }
      RunKeepsMet(env, Apply(env, s, events[0]), events[1..], t);
    }
  }

  // In every environment, whatever has a fingerprint other than the recorded one is not loaded.
  lemma LoadedIsExpected(env: Env, t: State, id: nat)
    requires Reachable(env, t) && id in t.jobs
    ensures Met(t.jobs[id])
  {
    var events :| Reaches(env, INITIAL, events, t);
    RunKeepsMet(env, INITIAL, events, t);
  }

  // The fingerprint a source gets when nobody touches it.
  function Recorded(env: Env, source: Source): Fingerprint {
    Fingerprint(Some(source.stamp), if env.supported then None else Some(source.text))
  }

  predicate LeavesAlone(e: Event, path: Path) { (e.Edit? || e.Delete?) ==> e.path != path }

  // What a load of a source that stays as it is knows at each point: the recorded stamp has been found
  // current, and a change is reported only for another fingerprint.
  predicate Undisturbed(env: Env, job: Job, source: Source) {
    var matches := job.expected.Some? ==> job.expected.value.metadata == Some(source.stamp);
    match job.pc
    case Start => true
    case Lookup => matches
    case HaveKey(stamp) => matches && env.supported && stamp == source.stamp
    case HaveTree(stamp, _) => matches && env.supported && stamp == source.stamp
    case HaveEntry(stamp, _, _) => matches && env.supported && stamp == source.stamp
    case Missed => matches
    case Statted(metadata) => matches && metadata == Some(source.stamp)
    case HaveText(metadata, text) => matches && metadata == Some(source.stamp) && text == source.text
    case HaveContentTree(metadata, text, _) => matches && metadata == Some(source.stamp) && text == source.text
    case Ready(metadata, text, _, _) => matches && metadata == Some(source.stamp) && text == source.text
    case Checked(fingerprint, text, _, _) => matches && fingerprint == Recorded(env, source) && text == source.text
    case Storing(_, fingerprint, text, _) => matches && fingerprint == Recorded(env, source) && text == source.text
    case WroteArchive(_, fingerprint, text, _) =>
      matches && fingerprint == Recorded(env, source) && text == source.text
    case SidecarFailed(_, fingerprint, text, _) =>
      matches && fingerprint == Recorded(env, source) && text == source.text
    case ArchiveUndone(_, fingerprint, text, _) =>
      matches && fingerprint == Recorded(env, source) && text == source.text
    case Done(outcome) => Reports(env, source, job.expected, outcome)
  }

  // What a load of an unchanging source may report.
  predicate Reports(env: Env, source: Source, expected: Option<Fingerprint>, outcome: Outcome) {
    match outcome
    case Loaded(_, fingerprint, text) =>
      && fingerprint == Recorded(env, source) && text == source.text
      && (expected.Some? ==> expected.value == Recorded(env, source))
    case Changed => expected.Some? && expected.value != Recorded(env, source)
    case Failed => expected.Some? ==> expected.value.metadata == Some(source.stamp)
  }

  lemma StepStaysUndisturbed(env: Env, w: World, job: Job, c: Choice)
    requires job.path in w.sources && Undisturbed(env, job, w.sources[job.path])
    ensures var (w', pc') := StepJob(env, w, job, c);
            w'.sources == w.sources && Undisturbed(env, job.(pc := pc'), w.sources[job.path])
  {
  }

  // The jobs on the path that have started since nobody touches it.
  ghost predicate AllUndisturbed(env: Env, s: State, path: Path, source: Source, older: set<nat>) {
    && path in s.world.sources && s.world.sources[path] == source
    && forall id | id in s.jobs && id !in older && s.jobs[id].path == path :: Undisturbed(env, s.jobs[id], source)
  }

  lemma {:induction false} RunStaysUndisturbed(
    env: Env, s: State, events: seq<Event>, t: State, path: Path, source: Source, older: set<nat>)
    requires Reaches(env, s, events, t) && AllUndisturbed(env, s, path, source, older)
    requires forall e | e in events :: LeavesAlone(e, path)
    ensures AllUndisturbed(env, t, path, source, older)
    decreases |events|
  {
    if events != [] {
      if events[0].Run? && s.jobs[events[0].id].path == path {
        EventStaysUndisturbed(env, s, events[0], path, source, older);
      }
      assert LeavesAlone(events[0], path);
      SourceStays(env, s, events[0], path);
      RunStaysUndisturbed(env, Apply(env, s, events[0]), events[1..], t, path, source, older);
    }
  }

  lemma EventStaysUndisturbed(env: Env, s: State, e: Event, path: Path, source: Source, older: set<nat>)
    requires AllUndisturbed(env, s, path, source, older) && e.Run? && Enabled(env, s, e) && s.jobs[e.id].path == path
    ensures AllUndisturbed(env, Apply(env, s, e), path, source, older)
  {
    SourceStays(env, s, e, path);
    if e.id !in older {
      StepStaysUndisturbed(env, s.world, s.jobs[e.id], e.choice);
    }
  }

  lemma SourceStays(env: Env, s: State, e: Event, path: Path)
    requires Enabled(env, s, e) && LeavesAlone(e, path) && path in s.world.sources
    ensures var t := Apply(env, s, e); path in t.world.sources && t.world.sources[path] == s.world.sources[path]
  {
  }

  // The job starts within a run that leaves its source alone.
  predicate StartsIn(s: State, id: nat) { id !in s.jobs || s.jobs[id].pc == Start }

  // A validation of a source nobody touches, beside any other jobs, pruners and failing operations, reports
  // a change exactly when the recorded fingerprint is not that of the source. The one exception is a source
  // that cannot be read, which is found out only where the recorded stamp is still current.
  lemma UndisturbedValidationIsExact(env: Env, s: State, events: seq<Event>, t: State, id: nat, path: Path)
    requires Reaches(env, s, events, t) && forall e | e in events :: LeavesAlone(e, path)
    requires path in s.world.sources && StartsIn(s, id)
    requires id in t.jobs && t.jobs[id].path == path && t.jobs[id].pc.Done? && t.jobs[id].expected.Some?
    ensures var (source, expected) := (s.world.sources[path], t.jobs[id].expected.value);
            var outcome := t.jobs[id].pc.outcome;
            && (expected.metadata != Some(source.stamp) ==> outcome.Changed?)
            && (outcome.Failed? || (outcome.Changed? <==> expected != Recorded(env, source)))
            && (outcome.Loaded? ==> outcome.text == source.text && outcome.fingerprint == Recorded(env, source))
  {
    UndisturbedReports(env, s, events, t, id, path);
  }

  lemma UndisturbedReports(env: Env, s: State, events: seq<Event>, t: State, id: nat, path: Path)
    requires Reaches(env, s, events, t) && forall e | e in events :: LeavesAlone(e, path)
    requires path in s.world.sources && StartsIn(s, id)
    requires id in t.jobs && t.jobs[id].path == path && t.jobs[id].pc.Done?
    ensures Reports(env, s.world.sources[path], t.jobs[id].expected, t.jobs[id].pc.outcome)
  {
    var older := s.jobs.Keys - {id};
    RunStaysUndisturbed(env, s, events, t, path, s.world.sources[path], older);
    assert id !in older;
  }

  // A file indexed and validated with nobody touching it in between is not reported as changed.
  lemma UneditedIsNotChanged(env: Env, s: State, events: seq<Event>, t: State, indexed: nat, validated: nat, path: Path)
    requires Reaches(env, s, events, t) && forall e | e in events :: LeavesAlone(e, path)
    requires path in s.world.sources && StartsIn(s, indexed) && StartsIn(s, validated)
    requires indexed in t.jobs && t.jobs[indexed].path == path
    requires t.jobs[indexed].pc.Done? && t.jobs[indexed].pc.outcome.Loaded?
    requires validated in t.jobs && t.jobs[validated].path == path && t.jobs[validated].pc.Done?
    requires t.jobs[validated].expected == Some(t.jobs[indexed].pc.outcome.fingerprint)
    ensures !t.jobs[validated].pc.outcome.Changed?
  {
    UndisturbedReports(env, s, events, t, indexed, path);
    UndisturbedReports(env, s, events, t, validated, path);
  }

  // ------------------------------------------------------------------ what a load finds and leaves

  // A job that runs with nothing else going on.
  function RunAlone(env: Env, w: World, job: Job, choices: seq<Choice>): (World, Job)
    decreases |choices|
  {
    if choices == [] then (w, job)
    else
      var (w', pc') := StepJob(env, w, job, choices[0]);
      RunAlone(env, w', job.(pc := pc'), choices[1..])
  }

  function Runs(id: nat, choices: seq<Choice>): seq<Event> {
    if choices == [] then [] else [Run(id, choices[0])] + Runs(id, choices[1..])
  }

  lemma {:induction false} AloneIsRun(env: Env, s: State, id: nat, choices: seq<Choice>)
    requires id in s.jobs
    ensures var (w, job) := RunAlone(env, s.world, s.jobs[id], choices);
            Reaches(env, s, Runs(id, choices), State(w, s.jobs[id := job]))
    decreases |choices|
  {
    if choices == [] {
      assert s.jobs[id := s.jobs[id]] == s.jobs;
    } else {
      var next := Apply(env, s, Run(id, choices[0]));
      AloneIsRun(env, next, id, choices[1..]);
      var (w, job) := RunAlone(env, s.world, s.jobs[id], choices);
      assert next.jobs[id := job] == s.jobs[id := job];
      assert Runs(id, choices)[1..] == Runs(id, choices[1..]);
    }
  }

  // An upper bound on the steps a job still has to take.
  function StepsLeft(pc: Pc): (n: nat)
    ensures n == 0 <==> pc.Done?
  {
    match pc
    case Start => 15
    case Lookup => 14
    case HaveKey(_) => 13
    case HaveTree(_, _) => 12
    case HaveEntry(_, _, _) => 11
    case Missed => 10
    case Statted(_) => 9
    case HaveText(_, _) => 8
    case HaveContentTree(_, _, _) => 7
    case Ready(_, _, _, _) => 6
    case Checked(_, _, _, _) => 5
    case Storing(_, _, _, _) => 4
    case WroteArchive(_, _, _, _) => 3
    case SidecarFailed(_, _, _, _) => 2
    case ArchiveUndone(_, _, _, _) => 1
    case Done(_) => 0
  }

  lemma StepNearsEnd(env: Env, w: World, job: Job, c: Choice)
    ensures !job.pc.Done? ==> StepsLeft(StepJob(env, w, job, c).1) < StepsLeft(job.pc)
    ensures job.pc.Done? ==> StepJob(env, w, job, c) == (w, job.pc)
  {
  }

  // Every load ends, whatever fails in it.
  lemma {:induction false} EveryLoadEnds(env: Env, w: World, job: Job, choices: seq<Choice>)
    requires |choices| >= StepsLeft(job.pc)
    ensures RunAlone(env, w, job, choices).1.pc.Done?
    decreases |choices|
  {
    if choices != [] {
      var (w', pc') := StepJob(env, w, job, choices[0]);
      StepNearsEnd(env, w, job, choices[0]);
      EveryLoadEnds(env, w', job.(pc := pc'), choices[1..]);
    }
  }

  // A job that runs to its end with every operation succeeding.
  function Finished(env: Env, w: World, job: Job): (World, Job)
    decreases StepsLeft(job.pc)
  {
    if job.pc.Done? then (w, job)
    else
      StepNearsEnd(env, w, job, YES);
      var (w', pc') := StepJob(env, w, job, YES);
      Finished(env, w', job.(pc := pc'))
  }

  function Smooth(n: nat): seq<Choice> { if n == 0 then [] else [YES] + Smooth(n - 1) }

  lemma {:induction false} FinishedIsRun(env: Env, w: World, job: Job, n: nat)
    requires n >= StepsLeft(job.pc)
    ensures RunAlone(env, w, job, Smooth(n)) == Finished(env, w, job)
    decreases n
  {
    if n > 0 {
      assert Smooth(n)[1..] == Smooth(n - 1);
      StepNearsEnd(env, w, job, YES);
      var (w', pc') := StepJob(env, w, job, YES);
      FinishedIsRun(env, w', job.(pc := pc'), n - 1);
    }
  }

  // The key an unchanging source is looked up and filed under.
  function EntryKey(env: Env, source: Source): Key {
    if env.supported then ByMetadata(source.stamp) else ByContent(source.text)
  }

  // Everything this use of the entry needs is there.
  predicate Complete(w: World, key: Key, use: Use) {
    && key in w.archives
    && (use == Full ==> key in w.sidecars && (key.ByMetadata? ==> w.sidecars[key].meta.Some?))
  }

  function Cached(w: World, key: Key, use: Use): ParsedFile
    requires Complete(w, key, use)
  {
    ParsedFile(w.archives[key], if use == Full then w.sidecars[key].errors else NoErrors)
  }

  // The source is there, and the job checks nothing or against the right fingerprint.
  predicate Suits(env: Env, w: World, job: Job) {
    job.path in w.sources && (job.expected.Some? ==> job.expected.value == Recorded(env, w.sources[job.path]))
  }

  function Here(w: World, job: Job): Source
    requires job.path in w.sources
  {
    w.sources[job.path]
  }

  function LoadedAs(env: Env, job: Job, source: Source, parsed: ParsedFile): Job {
    job.(pc := Done(Loaded(parsed, Recorded(env, source), source.text)))
  }

  // One smooth step.
  predicate Moves(env: Env, w: World, job: Job, pc: Pc) {
    !job.pc.Done? && StepJob(env, w, job, YES) == (w, pc)
  }

  lemma Moved(env: Env, w: World, job: Job, pc: Pc)
    requires Moves(env, w, job, pc)
    ensures Finished(env, w, job) == Finished(env, w, job.(pc := pc))
  {
  }

  lemma LookupStep(env: Env, w: World, job: Job)
    requires Suits(env, w, job)
    ensures Finished(env, w, job.(pc := Start)) == Finished(env, w, job.(pc := Lookup))
  {
    Moved(env, w, job.(pc := Start), Lookup);
  }

  lemma KeyStep(env: Env, w: World, job: Job)
    requires Suits(env, w, job)
    ensures Finished(env, w, job.(pc := Lookup))
         == Finished(env, w, job.(pc := if env.supported then HaveKey(Here(w, job).stamp) else Missed))
  {
    Moved(env, w, job.(pc := Lookup), if env.supported then HaveKey(Here(w, job).stamp) else Missed);
  }

  // Behind the archive, the sidecar: an entry that is whole is taken.
  lemma KeyedEntryStep(env: Env, w: World, job: Job, stamp: Stamp)
    requires Complete(w, ByMetadata(stamp), job.use)
    ensures Finished(env, w, job.(pc := HaveKey(stamp)))
         == Finished(env, w, job.(pc := HaveEntry(stamp, Cached(w, ByMetadata(stamp), job.use), true)))
  {
    var (key, parsed) := (ByMetadata(stamp), Cached(w, ByMetadata(stamp), job.use));
    if job.use == Full {
      Moved(env, w, job.(pc := HaveKey(stamp)), HaveTree(stamp, w.archives[key]));
      Moved(env, w, job.(pc := HaveTree(stamp, w.archives[key])), HaveEntry(stamp, parsed, true));
    } else {
      Moved(env, w, job.(pc := HaveKey(stamp)), HaveEntry(stamp, parsed, true));
    }
  }

  // One that is not whole is not.
  lemma KeyedMissStep(env: Env, w: World, job: Job, stamp: Stamp)
    requires !Complete(w, ByMetadata(stamp), job.use)
    ensures Finished(env, w, job.(pc := HaveKey(stamp))) == Finished(env, w, job.(pc := Missed))
  {
    var key := ByMetadata(stamp);
    if key !in w.archives {
      Moved(env, w, job.(pc := HaveKey(stamp)), Missed);
    } else {
      Moved(env, w, job.(pc := HaveKey(stamp)), HaveTree(stamp, w.archives[key]));
      HalfEntryStep(env, w, job, stamp, w.archives[key]);
    }
  }

  lemma HalfEntryStep(env: Env, w: World, job: Job, stamp: Stamp, tree: Tree)
    requires ByMetadata(stamp) in w.sidecars ==> w.sidecars[ByMetadata(stamp)].meta.None?
    ensures Finished(env, w, job.(pc := HaveTree(stamp, tree))) == Finished(env, w, job.(pc := Missed))
  {
    var key := ByMetadata(stamp);
    if key in w.sidecars {
      var entry := HaveEntry(stamp, ParsedFile(tree, w.sidecars[key].errors), false);
      Moved(env, w, job.(pc := HaveTree(stamp, tree)), entry);
      Moved(env, w, job.(pc := entry), Missed);
    } else {
      Moved(env, w, job.(pc := HaveTree(stamp, tree)), Missed);
    }
  }

  lemma KeyedEntryEnds(env: Env, w: World, job: Job, parsed: ParsedFile)
    requires env.supported && Suits(env, w, job)
    ensures Finished(env, w, job.(pc := HaveEntry(Here(w, job).stamp, parsed, true)))
         == (w, LoadedAs(env, job, Here(w, job), parsed))
  {
    Moved(env, w, job.(pc := HaveEntry(Here(w, job).stamp, parsed, true)), LoadedAs(env, job, Here(w, job), parsed).pc);
  }

  lemma TextStep(env: Env, w: World, job: Job)
    requires Suits(env, w, job)
    ensures Finished(env, w, job.(pc := Missed))
         == Finished(env, w, job.(pc := HaveText(Some(Here(w, job).stamp), Here(w, job).text)))
  {
    var stamp := Some(Here(w, job).stamp);
    Moved(env, w, job.(pc := Missed), Statted(stamp));
    Moved(env, w, job.(pc := Statted(stamp)), HaveText(stamp, Here(w, job).text));
  }

  lemma ContentEntryStep(env: Env, w: World, job: Job, stamp: Stamp, text: string)
    requires !env.supported && Complete(w, ByContent(text), job.use)
    ensures Finished(env, w, job.(pc := HaveText(Some(stamp), text)))
         == Finished(env, w, job.(pc := Ready(Some(stamp), text, Cached(w, ByContent(text), job.use), true)))
  {
    var (key, parsed) := (ByContent(text), Cached(w, ByContent(text), job.use));
    if job.use == Full {
      Moved(env, w, job.(pc := HaveText(Some(stamp), text)), HaveContentTree(Some(stamp), text, w.archives[key]));
      Moved(env, w, job.(pc := HaveContentTree(Some(stamp), text, w.archives[key])),
            Ready(Some(stamp), text, parsed, true));
    } else {
      Moved(env, w, job.(pc := HaveText(Some(stamp), text)), Ready(Some(stamp), text, parsed, true));
    }
  }

  lemma ContentMissStep(env: Env, w: World, job: Job, stamp: Stamp, text: string)
    requires env.supported || !Complete(w, ByContent(text), job.use)
    ensures Finished(env, w, job.(pc := HaveText(Some(stamp), text)))
         == Finished(env, w, job.(pc := Ready(Some(stamp), text, Parse(text), false)))
  {
    var (key, ready) := (ByContent(text), Ready(Some(stamp), text, Parse(text), false));
    if env.supported || key !in w.archives {
      Moved(env, w, job.(pc := HaveText(Some(stamp), text)), ready);
    } else {
      Moved(env, w, job.(pc := HaveText(Some(stamp), text)), HaveContentTree(Some(stamp), text, w.archives[key]));
      Moved(env, w, job.(pc := HaveContentTree(Some(stamp), text, w.archives[key])), ready);
    }
  }

  lemma CheckStep(env: Env, w: World, job: Job, parsed: ParsedFile, hit: bool)
    requires Suits(env, w, job)
    ensures Finished(env, w, job.(pc := Ready(Some(Here(w, job).stamp), Here(w, job).text, parsed, hit)))
         == Finished(env, w, job.(pc := Checked(Recorded(env, Here(w, job)), Here(w, job).text, parsed, hit)))
  {
    Moved(env, w, job.(pc := Ready(Some(Here(w, job).stamp), Here(w, job).text, parsed, hit)),
          Checked(Recorded(env, Here(w, job)), Here(w, job).text, parsed, hit));
  }

  lemma HitEnds(env: Env, w: World, job: Job, parsed: ParsedFile)
    requires Suits(env, w, job)
    ensures Finished(env, w, job.(pc := Checked(Recorded(env, Here(w, job)), Here(w, job).text, parsed, true)))
         == (w, LoadedAs(env, job, Here(w, job), parsed))
  {
    Moved(env, w, job.(pc := Checked(Recorded(env, Here(w, job)), Here(w, job).text, parsed, true)),
          LoadedAs(env, job, Here(w, job), parsed).pc);
  }

  // Where every operation succeeds and nobody touches the source, an entry that is whole is used as it is.
  lemma EntryIsHit(env: Env, w: World, job: Job)
    requires Suits(env, w, job) && job.pc == Start && Complete(w, EntryKey(env, Here(w, job)), job.use)
    ensures Finished(env, w, job)
         == (w, LoadedAs(env, job, Here(w, job), Cached(w, EntryKey(env, Here(w, job)), job.use)))
  {
    var (source, parsed) := (Here(w, job), Cached(w, EntryKey(env, Here(w, job)), job.use));
    assert job.(pc := Start) == job;
    LookupStep(env, w, job);
    KeyStep(env, w, job);
    if env.supported {
      KeyedEntryStep(env, w, job, source.stamp);
      KeyedEntryEnds(env, w, job, parsed);
    } else {
      TextStep(env, w, job);
      ContentEntryStep(env, w, job, source.stamp, source.text);
      CheckStep(env, w, job, parsed, true);
      HitEnds(env, w, job, parsed);
    }
  }

  // The entry a fresh parse of the source is filed as.
  function Filed(env: Env, w: World, source: Source): World {
    var key := EntryKey(env, source);
    var sidecar := Sidecar(ErrorsOf(source.text), if env.supported then Some(source.text) else None);
    w.(archives := w.archives[key := TreeOf(source.text)], sidecars := w.sidecars[key := sidecar])
  }

  lemma StoreStep(env: Env, w: World, job: Job)
    requires Suits(env, w, job)
    ensures var (source, parsed) := (Here(w, job), Parse(Here(w, job).text));
            Finished(env, w, job.(pc := Checked(Recorded(env, source), source.text, parsed, false)))
            == Finished(env, w, job.(pc := Storing(EntryKey(env, source), Recorded(env, source), source.text, parsed)))
  {
    var (source, parsed) := (Here(w, job), Parse(Here(w, job).text));
    Moved(env, w, job.(pc := Checked(Recorded(env, source), source.text, parsed, false)),
          Storing(EntryKey(env, source), Recorded(env, source), source.text, parsed));
  }

  lemma StoreEnds(env: Env, w: World, job: Job, source: Source)
    requires Suits(env, w, job) && source == Here(w, job)
    ensures Finished(
              env, w,
              job.(pc := Storing(EntryKey(env, source), Recorded(env, source), source.text, Parse(source.text))))
         == (Filed(env, w, source), LoadedAs(env, job, source, Parse(source.text)))
  {
    var (key, recorded) := (EntryKey(env, source), Recorded(env, source));
    var (text, parsed) := (source.text, Parse(source.text));
    var storing := job.(pc := Storing(key, recorded, text, parsed));
    var wrote := job.(pc := WroteArchive(key, recorded, text, parsed));
    var w' := w.(archives := w.archives[key := parsed.tree]);
    assert StepJob(env, w, storing, YES) == (w', wrote.pc);
    assert StepJob(env, w', wrote, YES) == (Filed(env, w, source), LoadedAs(env, job, source, parsed).pc);
    assert Finished(env, w, storing) == Finished(env, w', wrote);
    assert Finished(env, w', wrote) == Finished(env, Filed(env, w, source), LoadedAs(env, job, source, parsed));
  }

  // An entry that is not there, or not whole, is made from the source and filed whole.
  lemma MissIsStored(env: Env, w: World, job: Job)
    requires Suits(env, w, job) && job.pc == Start && !Complete(w, EntryKey(env, Here(w, job)), job.use)
    ensures Finished(env, w, job)
         == (Filed(env, w, Here(w, job)), LoadedAs(env, job, Here(w, job), Parse(Here(w, job).text)))
  {
    var source := Here(w, job);
    assert job.(pc := Start) == job;
    LookupStep(env, w, job);
    KeyStep(env, w, job);
    if env.supported {
      KeyedMissStep(env, w, job, source.stamp);
    }
    TextStep(env, w, job);
    ContentMissStep(env, w, job, source.stamp, source.text);
    CheckStep(env, w, job, Parse(source.text), false);
    StoreStep(env, w, job);
    StoreEnds(env, w, job, source);
  }

  // What was read while the source changed is filed under its content alone, and vouched for only by it.
  lemma DisturbedMissIsStored(env: Env, w: World, job: Job, metadata: Option<Stamp>, text: string)
    requires metadata.None? || Stat(w, job.path) != metadata
    requires job.expected.None?
    ensures var fingerprint := Fingerprint(None, if UsesContent(env, metadata) then Some(text) else None);
            Finished(env, w, job.(pc := Ready(metadata, text, Parse(text), false)))
            == (w.(archives := w.archives[ByContent(text) := TreeOf(text)],
                   sidecars := w.sidecars[ByContent(text) := Sidecar(ErrorsOf(text), None)]),
                job.(pc := Done(Loaded(Parse(text), fingerprint, text))))
  {
    var fingerprint := Fingerprint(None, if UsesContent(env, metadata) then Some(text) else None);
    var (key, parsed) := (ByContent(text), Parse(text));
    Moved(env, w, job.(pc := Ready(metadata, text, parsed, false)), Checked(fingerprint, text, parsed, false));
    Moved(env, w, job.(pc := Checked(fingerprint, text, parsed, false)), Storing(key, fingerprint, text, parsed));
    ContentStoreEnds(env, w, job, fingerprint, text);
  }

  lemma ContentStoreEnds(env: Env, w: World, job: Job, fingerprint: Fingerprint, text: string)
    requires job.expected.None?
    ensures Finished(env, w, job.(pc := Storing(ByContent(text), fingerprint, text, Parse(text))))
         == (w.(archives := w.archives[ByContent(text) := TreeOf(text)],
                sidecars := w.sidecars[ByContent(text) := Sidecar(ErrorsOf(text), None)]),
             job.(pc := Done(Loaded(Parse(text), fingerprint, text))))
  {
    var (key, parsed) := (ByContent(text), Parse(text));
    var w' := w.(archives := w.archives[key := parsed.tree]);
    var w'' := w'.(sidecars := w'.sidecars[key := Sidecar(parsed.errors, None)]);
    var storing := job.(pc := Storing(key, fingerprint, text, parsed));
    var wrote := job.(pc := WroteArchive(key, fingerprint, text, parsed));
    var done := job.(pc := Done(Loaded(parsed, fingerprint, text)));
    assert StepJob(env, w, storing, YES) == (w', wrote.pc) && StepJob(env, w', wrote, YES) == (w'', done.pc);
    assert Finished(env, w, storing) == Finished(env, w', wrote);
    assert Finished(env, w', wrote) == Finished(env, w'', done);
  }

  // Where only the second file of an entry cannot be written, neither is left, and the caller gets its parse
  // all the same.
  lemma HalfStoreIsUndone(
    env: Env, w: World, job: Job, key: Key, fingerprint: Fingerprint, text: string, parsed: ParsedFile, c: Choice)
    requires !c.ok && (job.expected.Some? ==> job.expected.value == fingerprint)
    ensures RunAlone(env, w, job.(pc := WroteArchive(key, fingerprint, text, parsed)), [c] + Smooth(2))
         == (w.(archives := w.archives - {key}, sidecars := w.sidecars - {key}),
             job.(pc := Done(Loaded(parsed, fingerprint, text))))
  {
    var wrote := job.(pc := WroteArchive(key, fingerprint, text, parsed));
    var failed := job.(pc := SidecarFailed(key, fingerprint, text, parsed));
    var undone := job.(pc := ArchiveUndone(key, fingerprint, text, parsed));
    var done := job.(pc := Done(Loaded(parsed, fingerprint, text)));
    var w1 := if c.lost then w.(sidecars := w.sidecars - {key}) else w;
    var w2 := w1.(archives := w1.archives - {key});
    var w3 := w2.(sidecars := w2.sidecars - {key});
    assert StepJob(env, w, wrote, c) == (w1, failed.pc) && StepJob(env, w1, failed, YES) == (w2, undone.pc);
    assert StepJob(env, w2, undone, YES) == (w3, done.pc);
    AloneStep(env, w, wrote, c, Smooth(2));
    assert Smooth(2)[1..] == Smooth(1) && Smooth(1)[1..] == Smooth(0);
    assert RunAlone(env, w1, failed, Smooth(2)) == RunAlone(env, w2, undone, Smooth(1));
    assert RunAlone(env, w2, undone, Smooth(1)) == RunAlone(env, w3, done, Smooth(0));
    assert w3 == w.(archives := w.archives - {key}, sidecars := w.sidecars - {key});
  }

  lemma AloneStep(env: Env, w: World, job: Job, c: Choice, rest: seq<Choice>)
    ensures var (w', pc') := StepJob(env, w, job, c);
            RunAlone(env, w, job, [c] + rest) == RunAlone(env, w', job.(pc := pc'), rest)
  {
    assert ([c] + rest)[1..] == rest;
  }

  // Nothing that goes wrong with the cache fails a load: only a source that cannot be read does.
  lemma OnlyReadingFails(env: Env, w: World, job: Job, c: Choice)
    requires !job.pc.Done?
    ensures StepJob(env, w, job, c).1 == Done(Failed) <==> job.pc.Statted? && !(c.ok && job.path in w.sources)
  {
  }

  // A file is parsed once: the load after a miss, for either use, takes what the miss has stored and
  // stores nothing.
  lemma SecondLoadHits(env: Env, w: World, first: Job, second: Job)
    requires Suits(env, w, first) && first.pc == Start && !Complete(w, EntryKey(env, Here(w, first)), first.use)
    requires Suits(env, w, second) && second.pc == Start && second.path == first.path
    ensures var (w', source) := (Finished(env, w, first).0, Here(w, first));
            Finished(env, w', second)
            == (w', LoadedAs(env, second, source,
                             ParsedFile(TreeOf(source.text),
                                        if second.use == Full then ErrorsOf(source.text) else NoErrors)))
  {
    MissIsStored(env, w, first);
    EntryIsHit(env, Filed(env, w, Here(w, first)), second);
  }

  const NOTHING := Fingerprint(None, None)

  // The source is edited between the stat and the read, so the pass can vouch for nothing.
  lemma LoadedWhileEdited(
    env: Env, s: State, id: nat, before: string, stamp: Stamp, text: string, stamp': Stamp) returns (t: State)
    requires env.supported && Reachable(env, s)
    requires id in s.jobs && s.jobs[id].pc == Missed
    requires s.jobs[id].expected.Some? ==> s.jobs[id].expected.value == NOTHING
    requires stamp !in s.world.issued && stamp' !in s.world.issued && stamp != stamp'
    ensures Reachable(env, t)
    ensures t.jobs == s.jobs[id := s.jobs[id].(pc := Done(Loaded(Parse(text), NOTHING, text)))]
    ensures t.world.issued == s.world.issued[stamp := before][stamp' := text]
  {
    var s1 := ReadPastStat(env, s, id, before, stamp, text, stamp');
    var s2 := Go(env, s1, Run(id, YES));
    assert s2.jobs[id].pc == Checked(NOTHING, text, Parse(text), false);
    t := Go(env, s2, Run(id, NO));
    assert t.jobs[id].pc == Done(Loaded(Parse(text), NOTHING, text));
  }

  // A file edited while it was indexed gets an empty fingerprint, which validation then matches
  // against bytes nobody indexed: the file is away when it is statted and edited again while it
  // is read.
  lemma EmptyFingerprintMatchesOtherBytes(env: Env) returns (t: State)
    requires env.supported
    ensures Reachable(env, t)
    ensures HasLoaded(t, 0, NOTHING) && HasLoaded(t, 1, NOTHING) && t.jobs[1].expected == Some(NOTHING)
    ensures t.jobs[0].pc.outcome.text == "b" && t.jobs[1].pc.outcome.text == "d"
  {
    InitialIsReachable(env);
    var s0 := SpawnMissed(env, INITIAL, 0, None);
    var s1 := LoadedWhileEdited(env, s0, 0, "a", 1, "b", 2);
    var s2 := Go(env, s1, Delete(0));
    var s3 := SpawnMissed(env, s2, 1, Some(NOTHING));
    t := LoadedWhileEdited(env, s3, 1, "c", 3, "d", 4);
  }

  // A validation against the fingerprint ended without reporting the file as changed.
  predicate Validated(t: State, id: nat, fingerprint: Fingerprint) {
    id in t.jobs && t.jobs[id].expected == Some(fingerprint) && t.jobs[id].pc.Done? && t.jobs[id].pc.outcome.Loaded?
  }

  ghost predicate BytesAgree(env: Env, fingerprint: Fingerprint) {
    forall t, indexed, validated |
        Reachable(env, t) && HasLoaded(t, indexed, fingerprint) && Validated(t, validated, fingerprint) ::
      t.jobs[indexed].pc.outcome.text == t.jobs[validated].pc.outcome.text
  }

  // A content hash in a fingerprint is that of the bytes the outcome was parsed from, whatever else
  // happens to stamps and metadata keys.
  predicate ContentOk(pc: Pc) {
    match pc
    case Checked(fingerprint, text, _, _) => Vouches(fingerprint, text)
    case Storing(_, fingerprint, text, _) => Vouches(fingerprint, text)
    case WroteArchive(_, fingerprint, text, _) => Vouches(fingerprint, text)
    case SidecarFailed(_, fingerprint, text, _) => Vouches(fingerprint, text)
    case ArchiveUndone(_, fingerprint, text, _) => Vouches(fingerprint, text)
    case Done(Loaded(_, fingerprint, text)) => Vouches(fingerprint, text)
    case _ => true
  }

  predicate Vouches(fingerprint: Fingerprint, text: string) {
    fingerprint.content.Some? ==> fingerprint.content.value == text
  }

  lemma StepKeepsContent(env: Env, w: World, job: Job, c: Choice)
    requires ContentOk(job.pc)
    ensures ContentOk(StepJob(env, w, job, c).1)
  {
  }

  lemma {:induction false} RunKeepsContent(env: Env, s: State, events: seq<Event>, t: State)
    requires Reaches(env, s, events, t) && forall id | id in s.jobs :: ContentOk(s.jobs[id].pc)
    ensures forall id | id in t.jobs :: ContentOk(t.jobs[id].pc)
    decreases |events|
  {
    if events != [] {
      if events[0].Run? {
        StepKeepsContent(env, s.world, s.jobs[events[0].id], events[0].choice);
      }
      RunKeepsContent(env, Apply(env, s, events[0]), events[1..], t);
    }
  }

  // What the fingerprint recorded at indexing has to carry: a content hash, or a metadata key where no
  // stamp comes back under a misread. (Where metadata keys are off, every fingerprint has the former.)
  predicate Vouched(env: Env, fingerprint: Fingerprint) {
    fingerprint.content.Some? || !env.supported || (fingerprint.metadata.Some? && env.steady)
  }

  // Whatever validation does not report as changed was parsed from the bytes that were indexed,
  // exactly when the recorded fingerprint vouches for them.
  lemma ValidationIsSoundExactly(env: Env, fingerprint: Fingerprint)
    ensures BytesAgree(env, fingerprint) <==> Vouched(env, fingerprint)
  {
    if Vouched(env, fingerprint) {
      forall t, indexed, validated |
          Reachable(env, t) && HasLoaded(t, indexed, fingerprint) && Validated(t, validated, fingerprint)
        ensures t.jobs[indexed].pc.outcome.text == t.jobs[validated].pc.outcome.text
      {
        LoadedIsExpected(env, t, validated);
        if fingerprint.content.Some? {
          var events :| Reaches(env, INITIAL, events, t);
          RunKeepsContent(env, INITIAL, events, t);
          assert ContentOk(t.jobs[indexed].pc) && ContentOk(t.jobs[validated].pc);
        } else {
          SameFingerprintSameBytes(env, t, indexed, validated, fingerprint);
        }
      }
    } else if fingerprint.metadata.None? {
      var t := EmptyFingerprintMatchesOtherBytes(env);
      assert fingerprint == NOTHING && Validated(t, 1, fingerprint);
    } else {
      var t := RestoredStampMatchesOtherBytes(env, fingerprint.metadata.value);
      assert fingerprint == Fingerprint(Some(fingerprint.metadata.value), None) && Validated(t, 1, fingerprint);
    }
  }

  // A job that finds its stamp current when it looks again.
  lemma SecondLook(env: Env, s: State, id: nat, stamp: Stamp, text: string) returns (t: State)
    requires env.supported && Reachable(env, s) && id in s.jobs && s.jobs[id].expected.None?
    requires s.jobs[id].pc == Ready(Some(stamp), text, Parse(text), false)
    requires Stat(s.world, s.jobs[id].path) == Some(stamp)
    ensures Reachable(env, t) && t.world == s.world
    ensures t.jobs == s.jobs[id := s.jobs[id].(pc := Done(Loaded(Parse(text), Fingerprint(Some(stamp), None), text)))]
  {
    var s1 := Go(env, s, Run(id, YES));
    assert s1.jobs[id].pc == Checked(Fingerprint(Some(stamp), None), text, Parse(text), false);
    t := Go(env, s1, Run(id, NO));
  }

  // The indexing pass misreads under a stamp that has come back by the time it looks again.
  lemma IndexMisread(env: Env, stamp: Stamp) returns (t: State)
    requires !Trusted(env)
    ensures Reachable(env, t) && 0 in t.world.sources && t.world.sources[0] == Source("a", stamp)
    ensures t.jobs == map[0 := Job(0, Full, None, Done(Loaded(Parse("b"), Fingerprint(Some(stamp), None), "b")))]
  {
    InitialIsReachable(env);
    var s0 := SpawnMissed(env, INITIAL, 0, None);
    var s1 := ReadPastStat(env, s0, 0, "a", stamp, "b", stamp + 1);
    var s2 := Go(env, s1, Edit(0, "a", stamp));
    t := SecondLook(env, s2, 0, stamp, "b");
  }

  // The indexing pass misreads under a stamp that comes back; the validating pass, later, sees that
  // stamp and reads the content it belongs to.
  lemma RestoredStampMatchesOtherBytes(env: Env, stamp: Stamp) returns (t: State)
    requires !Trusted(env)
    ensures Reachable(env, t)
    ensures var fingerprint := Fingerprint(Some(stamp), None);
            && HasLoaded(t, 0, fingerprint) && HasLoaded(t, 1, fingerprint) && t.jobs[1].expected == Some(fingerprint)
    ensures t.jobs[0].pc.outcome.text == "b" && t.jobs[1].pc.outcome.text == "a"
  {
    var fingerprint := Fingerprint(Some(stamp), None);
    var s4 := IndexMisread(env, stamp);
    var s5 := SpawnMissed(env, s4, 1, Some(fingerprint));
    t := ReadUndisturbed(env, s5, 1, stamp, "a");
  }

  // Nobody touches the source while the job statts, reads and statts again.
  lemma ReadUndisturbed(env: Env, s: State, id: nat, stamp: Stamp, text: string) returns (t: State)
    requires env.supported && Reachable(env, s) && id in s.jobs && s.jobs[id].pc == Missed
    requires s.jobs[id].expected == Some(Fingerprint(Some(stamp), None))
    requires s.jobs[id].path in s.world.sources && s.world.sources[s.jobs[id].path] == Source(text, stamp)
    ensures Reachable(env, t)
    ensures t.jobs == s.jobs[id := s.jobs[id].(pc := Done(Loaded(Parse(text), Fingerprint(Some(stamp), None), text)))]
  {
    var s1 := Go(env, s, Run(id, YES));
    assert s1.jobs[id].pc == Statted(Some(stamp));
    var s2 := Go(env, s1, Run(id, YES));
    assert s2.jobs[id].pc == HaveText(Some(stamp), text);
    var s3 := Go(env, s2, Run(id, YES));
    assert s3.jobs[id].pc == Ready(Some(stamp), text, Parse(text), false);
    var s4 := Go(env, s3, Run(id, YES));
    assert s4.jobs[id].pc == Checked(Fingerprint(Some(stamp), None), text, Parse(text), false);
    t := Go(env, s4, Run(id, NO));
  }
}
