// The rules-manifest refresh of the extension host (rulesSetup.ts, rulesManifest.ts): a conditional
// request against the published manifest, with the manifest and its ETag kept in a store whose two
// values are written one after the other and may each fail to be written.
module RulesRefresh {
  import opened Wrappers

  // Parsing rejects a manifest below the bundled revision.
  const MIN_REVISION: nat := 2

  type Revision = r: nat | r >= MIN_REVISION witness MIN_REVISION

  // The pins name a commit for each supported game.
  datatype Manifest = Manifest(revision: Revision, pins: map<string, string>)

  datatype Repo = Repo(url: string, ref: string)

  // Both sides list the same games, so one direction suffices.
  predicate SamePins(left: Manifest, right: Manifest) {
    forall id | id in left.pins :: id in right.pins && right.pins[id] == left.pins[id]
  }

  // The manifest to use from now on: the newer of the two, and the cached one when they are equal.
  datatype Selection = UseFetched | KeepCached | Conflict

  function SelectRulesManifest(cached: Option<Manifest>, fetched: Manifest): Selection {
    if cached.None? || fetched.revision > cached.value.revision then UseFetched
    else if fetched.revision < cached.value.revision then KeepCached
    else if !SamePins(cached.value, fetched) then Conflict
    else KeepCached
  }

  // The bundled table decides which repositories exist; a manifest only moves their refs.
  function RulesRepoForManifest(bundled: map<string, Repo>, language: string, manifest: Option<Manifest>)
    : Option<Repo>
  {
    if language !in bundled then None
    else if manifest.None? then Some(bundled[language])
    else
      var pins := manifest.value.pins;
      if language in pins && pins[language] != "" then Some(bundled[language].(ref := pins[language]))
      else Some(bundled[language])
  }

  // ------------------------------------------------------------------ ETags and the server

  const ETAG_MAX_CHARS: nat := 200

  // Only a short single-line value can go back into a request header.
  function UsableEtag(value: Option<string>): (r: Option<string>)
    ensures r.Some? ==> r == value
    ensures r.Some? <==>
              value.Some? && 0 < |value.value| <= ETAG_MAX_CHARS && '\r' !in value.value && '\n' !in value.value
  {
    match value
    case None => None
    case Some(etag) =>
      if etag == "" || |etag| > ETAG_MAX_CHARS || '\r' in etag || '\n' in etag then None else Some(etag)
  }

  // Weak comparison (section 8.8.3.2 of RFC 9110) ignores the weakness marker.
  function OpaqueTag(etag: string): string {
    if |etag| >= 2 && etag[..2] == "W/" then etag[2..] else etag
  }

  // What the server publishes at the time of a request: a body, `None` when it is not a valid
  // manifest, and the ETag header sent with it.
  datatype Served = Unreachable | Serving(body: Option<Manifest>, etag: Option<string>)

  datatype Response = NetworkError | NotModified | Success(body: Option<Manifest>, etag: Option<string>)

  // If-None-Match (section 13.1.2 of RFC 9110): a server that evaluates it answers 304 to a match.
  function Respond(served: Served, ifNoneMatch: Option<string>, evaluates: bool): Response {
    match served
    case Unreachable => NetworkError
    case Serving(body, etag) =>
      if evaluates && ifNoneMatch.Some? && etag.Some? && OpaqueTag(ifNoneMatch.value) == OpaqueTag(etag.value)
      then NotModified
      else Success(body, etag)
  }

  // The circumstances of one refresh.
  datatype Day = Day(served: Served, evaluates: bool, manifestWritten: bool, etagWritten: bool)

  // An honest server never sends one ETag with two different bodies.
  predicate Honest(truth: map<string, Option<Manifest>>, day: Day) {
    day.served.Serving? && day.served.etag.Some? ==>
      OpaqueTag(day.served.etag.value) in truth && truth[OpaqueTag(day.served.etag.value)] == day.served.body
  }

  // ------------------------------------------------------------------ one refresh

  datatype Store = Store(manifest: Option<Manifest>, etag: Option<string>)

  const EMPTY := Store(None, None)

  // The store after a refresh and the manifest whose pins that run uses. Without `conditional` no
  // ETag is ever sent and every answer carries the body.
  function Refresh(store: Store, day: Day, conditional: bool): (Store, Option<Manifest>) {
    var cached := store.manifest;
    var storedEtag := UsableEtag(store.etag);
    var etag := if conditional && cached.Some? then storedEtag else None;
    match Respond(day.served, etag, day.evaluates)
    case Success(Some(fetched), header) =>
      (match SelectRulesManifest(cached, fetched)
       case Conflict => (store, cached)
       case selection =>
         var newer := selection == UseFetched;
         var stored := if newer && day.manifestWritten then store.(manifest := Some(fetched)) else store;
         var nextEtag := if newer && !day.manifestWritten then None else UsableEtag(header);
         (if nextEtag != storedEtag && day.etagWritten then stored.(etag := nextEtag) else stored,
          if newer then Some(fetched) else cached))
    case _ => (store, cached)
  }

  class GlobalState {
    var manifest: Option<Manifest>
    var etag: Option<string>

    ghost function View(): Store
      reads this
    {
      Store(manifest, etag)
    }

    method UpdateManifest(value: Manifest, works: bool) returns (ok: bool)
      modifies this`manifest
      ensures ok == works && manifest == if works then Some(value) else old(manifest)
    {
      ok := works;
      if works {
        manifest := Some(value);
      }
    }

    method UpdateEtag(value: Option<string>, works: bool) returns (ok: bool)
      modifies this`etag
      ensures ok == works && etag == if works then value else old(etag)
    {
      ok := works;
      if works {
        etag := value;
      }
    }

    method ReviewedRulesManifest(day: Day, conditional: bool) returns (used: Option<Manifest>)
      modifies this
      ensures (View(), used) == Refresh(old(View()), day, conditional)
    {
      var cached := manifest;
      var storedEtag := UsableEtag(etag);
      var sent := if conditional && cached.Some? then storedEtag else None;
      used := cached;
      var response := Respond(day.served, sent, day.evaluates);
      if !response.Success? || response.body.None? {
        return;
      }
      var fetched := response.body.value;
      var selection := SelectRulesManifest(cached, fetched);
      if selection == Conflict {
        return;
      }
      var manifestCached := selection == KeepCached;
      if !manifestCached {
        used := Some(fetched);
        manifestCached := UpdateManifest(fetched, day.manifestWritten);
      }
      var nextEtag := if manifestCached then UsableEtag(response.etag) else None;
      if nextEtag != storedEtag {
        var written := UpdateEtag(nextEtag, day.etagWritten);
      }
    }

    // reviewedRulesRepo: the repository whose rules are used from now on.
    method ReviewedRulesRepo(bundled: map<string, Repo>, language: string, day: Day, conditional: bool)
      returns (repo: Option<Repo>)
      modifies this
      ensures View() == Refresh(old(View()), day, conditional).0
      ensures repo == RepoInUse(bundled, language, old(View()), day, conditional)
    {
      var used := ReviewedRulesManifest(day, conditional);
      repo := RulesRepoForManifest(bundled, language, used);
    }
  }

  // The repository a refresh ends with.
  function RepoInUse(
    bundled: map<string, Repo>, language: string, store: Store, day: Day, conditional: bool): Option<Repo>
  {
    RulesRepoForManifest(bundled, language, Refresh(store, day, conditional).1)
  }

  // The server is asked about a stored ETag and answers that it is current.
  predicate Unmodified(store: Store, day: Day, conditional: bool) {
    && conditional && store.manifest.Some? && UsableEtag(store.etag).Some?
    && day.evaluates && day.served.Serving? && day.served.etag.Some?
    && OpaqueTag(store.etag.value) == OpaqueTag(day.served.etag.value)
  }

  // The day's answer carries the manifest.
  predicate Carries(store: Store, day: Day, conditional: bool, fetched: Manifest) {
    day.served.Serving? && day.served.body == Some(fetched) && !Unmodified(store, day, conditional)
  }

  // The repository has the bundled URL, and the manifest's pin for the game unless that is missing or empty.
  predicate Pinned(bundled: map<string, Repo>, language: string, manifest: Manifest, repo: Option<Repo>)
    requires language in bundled
  {
    && repo.Some? && repo.value.url == bundled[language].url
    && (language in manifest.pins && manifest.pins[language] != "" ==> repo.value.ref == manifest.pins[language])
    && (language !in manifest.pins || manifest.pins[language] == "" ==> repo.value.ref == bundled[language].ref)
  }

  // A served manifest newer than the stored one moves the game to its pin in that same refresh, whether or
  // not either write succeeds.
  lemma ServedPinIsUsed(
    bundled: map<string, Repo>, language: string, store: Store, day: Day, conditional: bool, fetched: Manifest)
    requires language in bundled && Carries(store, day, conditional, fetched)
    requires store.manifest.None? || fetched.revision > store.manifest.value.revision
    ensures Pinned(bundled, language, fetched, RepoInUse(bundled, language, store, day, conditional))
  {
  }

  // Anything else the server may do leaves the game on the stored pin, or on the bundled one where no
  // manifest is stored.
  lemma StoredPinIsKept(bundled: map<string, Repo>, language: string, store: Store, day: Day, conditional: bool)
    requires language in bundled
    requires forall fetched | Carries(store, day, conditional, fetched) ::
               store.manifest.Some? && fetched.revision <= store.manifest.value.revision
    ensures store.manifest.Some? ==>
              Pinned(bundled, language, store.manifest.value, RepoInUse(bundled, language, store, day, conditional))
    ensures store.manifest.None? ==> RepoInUse(bundled, language, store, day, conditional) == Some(bundled[language])
  {
    var response := Respond(
      day.served, if conditional && store.manifest.Some? then UsableEtag(store.etag) else None, day.evaluates);
    if response.Success? && response.body.Some? {
      assert Carries(store, day, conditional, response.body.value);
    }
  }

  // A manifest adds no repository, and only games with different pins end on different commits.
  lemma ReposAreBundled(bundled: map<string, Repo>, language: string, store: Store, day: Day, conditional: bool)
    ensures RepoInUse(bundled, language, store, day, conditional).Some? <==> language in bundled
  {
  }

  lemma DifferentPinsDiffer(bundled: map<string, Repo>, language: string, first: Manifest, second: Manifest)
    requires language in bundled && language in first.pins && language in second.pins
    requires first.pins[language] != "" && second.pins[language] != ""
    ensures RulesRepoForManifest(bundled, language, Some(first))
            == RulesRepoForManifest(bundled, language, Some(second))
       <==> first.pins[language] == second.pins[language]
  {
  }

  // ------------------------------------------------------------------ conditional refines unconditional

  // The body an ETag stands for adds nothing to the manifest stored beside it.
  ghost predicate PairOk(truth: map<string, Option<Manifest>>, store: Store) {
    UsableEtag(store.etag).Some? ==>
      && store.manifest.Some?
      && OpaqueTag(store.etag.value) in truth
      && truth[OpaqueTag(store.etag.value)].Some?
      && AddsNothing(truth[OpaqueTag(store.etag.value)].value, store.manifest.value)
  }

  // The body is older than the manifest, or of its revision and with its pins.
  ghost predicate AddsNothing(body: Manifest, manifest: Manifest) {
    || body.revision < manifest.revision
    || (body.revision == manifest.revision &&
          forall id | id in manifest.pins :: id in body.pins && body.pins[id] == manifest.pins[id])
  }

  lemma RefreshKeepsPair(truth: map<string, Option<Manifest>>, store: Store, day: Day, conditional: bool)
    requires PairOk(truth, store) && Honest(truth, day)
    ensures PairOk(truth, Refresh(store, day, conditional).0)
  {
  }

  // The body the stored ETag stands for would not replace the stored manifest; and where none is stored
  // yet, it is no newer than any manifest that may come to be stored beside the ETag.
  ghost predicate Harmless(truth: map<string, Option<Manifest>>, store: Store) {
    var etag := UsableEtag(store.etag);
    etag.Some? && OpaqueTag(etag.value) in truth && truth[OpaqueTag(etag.value)].Some? ==>
      truth[OpaqueTag(etag.value)].value.revision
      <= if store.manifest.Some? then store.manifest.value.revision else MIN_REVISION
  }

  lemma RefreshKeepsHarmless(truth: map<string, Option<Manifest>>, store: Store, day: Day, conditional: bool)
    requires Harmless(truth, store) && Honest(truth, day)
    ensures Harmless(truth, Refresh(store, day, conditional).0)
  {
  }

  lemma OneRefreshRefines(
    truth: map<string, Option<Manifest>>, store: Store, full: Store, day: Day)
    requires Harmless(truth, store) && Honest(truth, day) && store.manifest == full.manifest
    ensures var ((store', used), (full', used')) := (Refresh(store, day, true), Refresh(full, day, false));
            store'.manifest == full'.manifest && used == used'
  {
  }

  // The manifests used by a series of refreshes, and the store they leave.
  function Run(store: Store, days: seq<Day>, conditional: bool): (seq<Option<Manifest>>, Store)
    decreases |days|
  {
    if days == [] then ([], store)
    else
      var (next, used) := Refresh(store, days[0], conditional);
      var (rest, last) := Run(next, days[1..], conditional);
      ([used] + rest, last)
  }

  lemma {:induction false} RunRefines(
    truth: map<string, Option<Manifest>>, store: Store, full: Store, days: seq<Day>)
    requires Harmless(truth, store) && store.manifest == full.manifest
    requires forall d | d in days :: Honest(truth, d)
    ensures Run(store, days, true).0 == Run(full, days, false).0
    ensures Run(store, days, true).1.manifest == Run(full, days, false).1.manifest
    decreases |days|
  {
    if days != [] {
      OneRefreshRefines(truth, store, full, days[0]);
      RefreshKeepsHarmless(truth, store, days[0], true);
      RunRefines(truth, Refresh(store, days[0], true).0, Refresh(full, days[0], false).0, days[1..]);
    }
  }

  // Over any series of refreshes, conditional or not, the stored pair stays a pair.
  lemma {:induction false} StoreStaysPaired(
    truth: map<string, Option<Manifest>>, store: Store, days: seq<Day>, conditional: bool)
    requires PairOk(truth, store) && forall d | d in days :: Honest(truth, d)
    ensures PairOk(truth, Run(store, days, conditional).1)
    decreases |days|
  {
    if days != [] {
      RefreshKeepsPair(truth, store, days[0], conditional);
      StoreStaysPaired(truth, Refresh(store, days[0], conditional).0, days[1..], conditional);
    }
  }

  // From an empty store and against an honest server, sending If-None-Match changes nothing: every
  // refresh picks the same pins and persists the same manifest as one that always downloads the
  // body, whichever requests and store writes fail along the way.
  lemma ConditionalRefinesUnconditional(
    truth: map<string, Option<Manifest>>, days: seq<Day>, bundled: map<string, Repo>, language: string, i: nat)
    requires forall d | d in days :: Honest(truth, d)
    requires i < |Run(EMPTY, days, true).0|
    ensures Run(EMPTY, days, false).0 == Run(EMPTY, days, true).0
    ensures RulesRepoForManifest(bundled, language, Run(EMPTY, days, true).0[i])
         == RulesRepoForManifest(bundled, language, Run(EMPTY, days, false).0[i])
    ensures Run(EMPTY, days, true).1.manifest == Run(EMPTY, days, false).1.manifest
  {
    RunRefines(truth, EMPTY, EMPTY, days);
  }

  predicate NoOlder(before: Option<Manifest>, after: Option<Manifest>) {
    before.Some? ==> after.Some? && after.value.revision >= before.value.revision
  }

  // The persisted manifest is only ever replaced by a newer revision, and no manifest in use is older
  // than the one persisted at the start.
  lemma {:induction false} RevisionNeverDecreases(store: Store, days: seq<Day>, conditional: bool)
    ensures NoOlder(store.manifest, Run(store, days, conditional).1.manifest)
    ensures forall used | used in Run(store, days, conditional).0 :: NoOlder(store.manifest, used)
    decreases |days|
  {
    if days != [] {
      var (next, used) := Refresh(store, days[0], conditional);
      RevisionNeverDecreases(next, days[1..], conditional);
      assert NoOlder(store.manifest, next.manifest) && NoOlder(store.manifest, used);
    }
  }

  lemma RunOfTwo(store: Store, first: Day, second: Day, conditional: bool)
    ensures var (next, used) := Refresh(store, first, conditional);
            var (last, used') := Refresh(next, second, conditional);
            Run(store, [first, second], conditional) == ([used, used'], last)
  {
    var (next, used) := Refresh(store, first, conditional);
    var (last, used') := Refresh(next, second, conditional);
    var (days, rest) := ([first, second], [second]);
    var nothing: seq<Option<Manifest>> := [];
    assert days[1..] == rest && rest[1..] == [];
    assert Run(last, [], conditional) == (nothing, last);
    assert [used'] + nothing == [used'] && [used] + [used'] == [used, used'];
    assert Run(next, rest, conditional) == ([used'] + nothing, last);
    assert Run(store, days, conditional) == ([used] + [used'], last);
  }

  // Why an ETag may not outlive its manifest: a store that holds one alone can end up pairing it
  // with an older manifest, and then goes on using old pins where a full download would not.
  lemma OrphanEtagDiverges(tag: string, old': Manifest, new': Manifest)
    requires UsableEtag(Some(tag)).Some? && old'.revision < new'.revision
    ensures var store := Store(None, Some(tag));
            var days := [Day(Serving(Some(old'), None), true, true, false),
                         Day(Serving(Some(new'), Some(tag)), true, true, true)];
            && (forall d | d in days :: Honest(map[OpaqueTag(tag) := Some(new')], d))
            && Run(store, days, true).0 == [Some(old'), Some(old')]
            && Run(store, days, false).0 == [Some(old'), Some(new')]
  {
    var store := Store(None, Some(tag));
    var days := [Day(Serving(Some(old'), None), true, true, false),
                 Day(Serving(Some(new'), Some(tag)), true, true, true)];
    RunOfTwo(store, days[0], days[1], true);
    RunOfTwo(store, days[0], days[1], false);
    assert Refresh(store, days[0], true) == (Store(Some(old'), Some(tag)), Some(old'));
    assert Refresh(store, days[0], false) == (Store(Some(old'), Some(tag)), Some(old'));
  }

  // A store whose ETag stands for a newer body than its manifest is told that nothing has changed.
  lemma NewerEtagDiverges(tag: string, old': Manifest, new': Manifest)
    requires UsableEtag(Some(tag)).Some? && old'.revision < new'.revision
    ensures var store := Store(Some(old'), Some(tag));
            var day := Day(Serving(Some(new'), Some(tag)), true, true, true);
            && Honest(map[OpaqueTag(tag) := Some(new')], day)
            && Run(store, [day], true).0 == [Some(old')] && Run(store, [day], false).0 == [Some(new')]
  {
    var store := Store(Some(old'), Some(tag));
    var day := Day(Serving(Some(new'), Some(tag)), true, true, true);
    RunOfOne(store, day, true);
    RunOfOne(store, day, false);
  }

  lemma RunOfOne(store: Store, day: Day, conditional: bool)
    ensures var (next, used) := Refresh(store, day, conditional);
            Run(store, [day], conditional) == ([used], next)
  {
    var (next, used) := Refresh(store, day, conditional);
    var nothing: seq<Option<Manifest>> := [];
    assert [day][1..] == [];
    assert Run(next, [], conditional) == (nothing, next);
    assert [used] + nothing == [used];
  }

  ghost predicate Refines(truth: map<string, Option<Manifest>>, store: Store) {
    forall days | forall d | d in days :: Honest(truth, d) ::
      && Run(store, days, true).0 == Run(store, days, false).0
      && Run(store, days, true).1.manifest == Run(store, days, false).1.manifest
  }

  // From any store, whatever an honest server does, the two kinds of refresh agree exactly when the
  // stored ETag is harmless.
  lemma RefinesExactly(truth: map<string, Option<Manifest>>, store: Store)
    ensures Refines(truth, store) <==> Harmless(truth, store)
  {
    if Harmless(truth, store) {
      forall days | forall d | d in days :: Honest(truth, d)
        ensures Run(store, days, true).0 == Run(store, days, false).0
        ensures Run(store, days, true).1.manifest == Run(store, days, false).1.manifest
      {
        RunRefines(truth, store, store, days);
      }
    } else {
      var tag := store.etag.value;
      var newer := truth[OpaqueTag(tag)].value;
      assert store == Store(store.manifest, Some(tag));
      if store.manifest.Some? {
        var day := Day(Serving(Some(newer), Some(tag)), true, true, true);
        NewerEtagDiverges(tag, store.manifest.value, newer);
        assert forall d | d in [day] :: Honest(truth, d);
      } else {
        var older := Manifest(MIN_REVISION, map[]);
        var days := [Day(Serving(Some(older), None), true, true, false),
                     Day(Serving(Some(newer), Some(tag)), true, true, true)];
        OrphanEtagDiverges(tag, older, newer);
        assert forall d | d in days :: Honest(truth, d);
        assert Run(store, days, true).0[1] != Run(store, days, false).0[1];
      }
    }
  }

  // ------------------------------------------------------------------ the stored ETag

  // The body contradicts the stored manifest: one revision with two sets of pins.
  ghost predicate Contradicts(store: Store, fetched: Manifest) {
    && store.manifest.Some? && fetched.revision == store.manifest.value.revision
    && exists id | id in store.manifest.value.pins ::
         id !in fetched.pins || fetched.pins[id] != store.manifest.value.pins[id]
  }

  // An answer whose manifest is stored, or was stored before, leaves its ETag to be sent next time; one
  // without a usable ETag, or with a manifest that could not be stored, leaves none; and a contradicting
  // one changes nothing.
  lemma EtagFollowsAnswer(store: Store, day: Day, conditional: bool, fetched: Manifest)
    requires Carries(store, day, conditional, fetched) && day.etagWritten
    ensures var next := Refresh(store, day, conditional).0;
            var stored := next.manifest.Some? && next.manifest.value.revision >= fetched.revision;
            if Contradicts(store, fetched) then next == store
            else UsableEtag(next.etag) == if stored then UsableEtag(day.served.etag) else None
  {
    if store.manifest.Some? {
      assert SamePins(store.manifest.value, fetched) <==>
               !exists id | id in store.manifest.value.pins ::
                  id !in fetched.pins || fetched.pins[id] != store.manifest.value.pins[id];
    }
  }

  // So where writes succeed the server is asked in vain once at most: as long as it serves the same, the
  // next refresh is answered without a body.
  lemma NextAnswerIsUnmodified(store: Store, day: Day, fetched: Manifest)
    requires day.served.Serving? && day.served.body == Some(fetched) && UsableEtag(day.served.etag).Some?
    requires day.evaluates && day.manifestWritten && day.etagWritten && !Contradicts(store, fetched)
    ensures Unmodified(Refresh(store, day, true).0, day, true)
  {
    if !Unmodified(store, day, true) {
      EtagFollowsAnswer(store, day, true, fetched);
    }
  }

  // ------------------------------------------------------------------ the newest manifest

  // The first of the newest among the candidates.
  ghost predicate FirstNewest(candidates: seq<Option<Manifest>>, used: Option<Manifest>) {
    if used.None? then forall c | c in candidates :: c.None?
    else exists at :: NewestAt(candidates, used.value, at)
  }

  ghost predicate NewestAt(candidates: seq<Option<Manifest>>, used: Manifest, at: int) {
    && 0 <= at < |candidates| && candidates[at] == Some(used)
    && (forall k | 0 <= k < at :: Below(candidates[k], used.revision))
    && (forall k | at < k < |candidates| :: Below(candidates[k], used.revision + 1))
  }

  predicate Below(candidate: Option<Manifest>, revision: nat) {
    candidate.Some? ==> candidate.value.revision < revision
  }

  // The valid bodies served, day by day.
  function Bodies(days: seq<Day>): seq<Option<Manifest>> {
    if days == [] then []
    else [if days[0].served.Serving? then days[0].served.body else None] + Bodies(days[1..])
  }

  lemma OneDayNewest(store: Store, day: Day)
    ensures FirstNewest([store.manifest] + Bodies([day]), Refresh(store, day, false).1)
  {
    var body := if day.served.Serving? then day.served.body else None;
    assert Bodies([day]) == [body] + Bodies([day][1..]);
    var candidates := [store.manifest] + Bodies([day]);
    assert candidates == [store.manifest, body];
    var used := Refresh(store, day, false).1;
    if used.Some? {
      assert NewestAt(candidates, used.value, 0) || NewestAt(candidates, used.value, 1);
    }
  }

  // The newest of what follows is the newest of all when it beats what came first.
  lemma LaterIsNewest(
    start: seq<Option<Manifest>>, next: Option<Manifest>, rest: seq<Option<Manifest>>, used: Manifest, at: int)
    requires NewestAt([next] + rest, used, at) && at > 0
    requires FirstNewest(start, next)
    ensures NewestAt(start + rest, used, |start| + at - 1)
  {
    var some := [next] + rest;
    assert forall k | 0 <= k < |rest| :: some[k + 1] == rest[k];
    assert some[0] == next && Below(next, used.revision);
    forall k | 0 <= k < |start|
      ensures Below(start[k], used.revision)
    {
      assert start[k] in start;
    }
  }

  lemma EarlierIsNewest(
    start: seq<Option<Manifest>>, rest: seq<Option<Manifest>>, used: Manifest, at: int)
    requires NewestAt([Some(used)] + rest, used, 0) && NewestAt(start, used, at)
    ensures NewestAt(start + rest, used, at)
  {
    var some := [Some(used)] + rest;
    assert forall k | 0 <= k < |rest| :: some[k + 1] == rest[k];
  }

  lemma NewestComposes(
    start: seq<Option<Manifest>>, next: Option<Manifest>, rest: seq<Option<Manifest>>, used: Option<Manifest>)
    requires FirstNewest(start, next) && FirstNewest([next] + rest, used)
    ensures FirstNewest(start + rest, used)
  {
    if used.Some? {
      var at :| NewestAt([next] + rest, used.value, at);
      if at > 0 {
        LaterIsNewest(start, next, rest, used.value, at);
      } else {
        var at' :| NewestAt(start, used.value, at');
        EarlierIsNewest(start, rest, used.value, at');
      }
    } else {
      assert ([next] + rest)[0] == next && next in [next] + rest;
      assert forall c | c in rest :: c in [next] + rest;
    }
  }

  lemma {:induction false} DownloadsUseNewest(store: Store, days: seq<Day>, i: nat)
    requires i < |Run(store, days, false).0| && forall d | d in days :: d.manifestWritten
    ensures i < |days| && FirstNewest([store.manifest] + Bodies(days[..i + 1]), Run(store, days, false).0[i])
    decreases |days|
  {
    var (next, used) := Refresh(store, days[0], false);
    OneDayNewest(store, days[0]);
    if i == 0 {
      assert days[..1] == [days[0]];
    } else {
      assert next.manifest == used;
      DownloadsUseNewest(next, days[1..], i - 1);
      var body := if days[0].served.Serving? then days[0].served.body else None;
      assert Bodies([days[0]]) == [body] + Bodies([days[0]][1..]) == [body];
      assert days[..i + 1][1..] == days[1..][..i] && days[..i + 1][0] == days[0];
      var rest := Bodies(days[1..][..i]);
      assert Bodies(days[..i + 1]) == [body] + rest;
      assert [store.manifest] + [body] == [store.manifest, body];
      NewestComposes([store.manifest, body], used, rest, Run(next, days[1..], false).0[i - 1]);
      assert [store.manifest, body] + rest == [store.manifest] + Bodies(days[..i + 1]);
    }
  }

  // Where manifests can be written, every refresh, conditional or not, uses the newest valid manifest among
  // the stored one and all that were served so far, and the earliest of those where revisions are equal.
  lemma NewestIsUsed(
    truth: map<string, Option<Manifest>>, store: Store, days: seq<Day>, conditional: bool, i: nat)
    requires Harmless(truth, store) && forall d | d in days :: Honest(truth, d) && d.manifestWritten
    requires i < |Run(store, days, conditional).0|
    ensures i < |days| && FirstNewest([store.manifest] + Bodies(days[..i + 1]), Run(store, days, conditional).0[i])
  {
    RunRefines(truth, store, store, days);
    DownloadsUseNewest(store, days, i);
  }

  // ------------------------------------------------------------------ the pins in use

  // The manifest the answer carries, if it carries a valid one.
  function Fetched(store: Store, day: Day, conditional: bool): Option<Manifest> {
    var etag := if conditional && store.manifest.Some? then UsableEtag(store.etag) else None;
    match Respond(day.served, etag, day.evaluates)
    case Success(body, _) => body
    case _ => None
  }

  predicate Newer(store: Store, fetched: Option<Manifest>) {
    fetched.Some? && SelectRulesManifest(store.manifest, fetched.value) == UseFetched
  }

  // From one refresh to the next the manifest in use goes back exactly when the first used a newer
  // manifest that it could not write and the second is not answered with one as new.
  lemma UsedStaysExactly(store: Store, first: Day, second: Day, conditional: bool)
    ensures var (next, used) := Refresh(store, first, conditional);
            var (_, used') := Refresh(next, second, conditional);
            var again := Fetched(next, second, conditional);
            NoOlder(used, used') <==>
              || !Newer(store, Fetched(store, first, conditional)) || first.manifestWritten
              || (again.Some? && again.value.revision >= used.value.revision)
  {
  }

  // So a newer manifest is used for one day and given up on the next, when the write of it failed and
  // then the server cannot be reached.
  lemma UnwrittenManifestIsGivenUp(old': Manifest, new': Manifest, conditional: bool)
    requires old'.revision < new'.revision
    ensures var days := [Day(Serving(Some(new'), None), true, false, true), Day(Unreachable, true, true, true)];
            Run(Store(Some(old'), None), days, conditional).0 == [Some(new'), Some(old')]
  {
    RunOfTwo(
      Store(Some(old'), None), Day(Serving(Some(new'), None), true, false, true), Day(Unreachable, true, true, true),
      conditional);
  }

  // Where every write of a manifest succeeds, the manifests used over a run never go back.
  lemma {:induction false} WrittenRunsNeverGoBack(store: Store, days: seq<Day>, conditional: bool, i: nat, j: nat)
    requires forall d | d in days :: d.manifestWritten
    requires i <= j < |Run(store, days, conditional).0|
    ensures NoOlder(Run(store, days, conditional).0[i], Run(store, days, conditional).0[j])
    decreases |days|
  {
    var (next, used) := Refresh(store, days[0], conditional);
    if i == 0 {
      assert used == next.manifest;
      if j > 0 {
        RevisionNeverDecreases(next, days[1..], conditional);
        assert Run(store, days, conditional).0[j] == Run(next, days[1..], conditional).0[j - 1];
      }
    } else {
      WrittenRunsNeverGoBack(next, days[1..], conditional, i - 1, j - 1);
    }
  }
}
