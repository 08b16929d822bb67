// How a scope registry is built from the declared scopes, and how a name resolves in it
// (ScopeRegistry::from_config and id_of).
module ScopeConfig {
  import opened Scopes
  import opened Text
  import opened Wrappers

  datatype ScopeInput = ScopeInput(name: string, aliases: seq<string>, isSubscopeOf: seq<string>)

  const FIRST_ID: ScopeId := 100

  predicate IsNamed(si: ScopeInput, word: string) {
    Lower(si.name) == word || exists a | a in si.aliases :: Lower(a) == word
  }

  predicate IsSpecial(si: ScopeInput) { IsNamed(si, "invalid") || IsNamed(si, "any") }

  function IdOf(byName: map<string, ScopeId>, name: string): Option<ScopeId> {
    var trimmed := Trim(name);
    if Lower(trimmed) in {"any", "all", "none"} then Some(SCOPE_ANY)
    else if Lower(trimmed) == "invalid" then Some(SCOPE_INVALID)
    else if trimmed in byName then Some(byName[trimmed])
    else if (exists c | c in trimmed :: 'A' <= c <= 'Z') && Lower(trimmed) in byName then Some(byName[Lower(trimmed)])
    else None
  }

  // ------------------------------------------------------------------ what is declared

  // How many of the inputs get an id of their own.
  function Ordinary(inputs: seq<ScopeInput>): nat {
    if inputs == [] then 0
    else Ordinary(inputs[..|inputs| - 1]) + if IsSpecial(inputs[|inputs| - 1]) then 0 else 1
  }

  function IdAt(inputs: seq<ScopeInput>, k: nat): ScopeId
    requires k < |inputs|
  {
    if IsNamed(inputs[k], "invalid") then SCOPE_INVALID
    else if IsNamed(inputs[k], "any") then SCOPE_ANY
    else FIRST_ID + Ordinary(inputs[..k])
  }

  // The last input that goes by `word`.
  function LastNamed(inputs: seq<ScopeInput>, word: string): (k: Option<nat>)
    ensures k.Some? ==> k.value < |inputs| && IsNamed(inputs[k.value], word)
    ensures forall j | 0 <= j < |inputs| && IsNamed(inputs[j], word) :: k.Some? && j <= k.value
  {
    if inputs == [] then None
    else if IsNamed(inputs[|inputs| - 1], word) then Some(|inputs| - 1)
    else LastNamed(inputs[..|inputs| - 1], word)
  }

  // A name belongs to the last input that goes by it.
  ghost predicate NamesDeclared(inputs: seq<ScopeInput>, byName: map<string, ScopeId>) {
    forall word ::
      && (word in byName <==> LastNamed(inputs, word).Some?)
      && (word in byName ==> byName[word] == IdAt(inputs, LastNamed(inputs, word).value))
  }

  predicate EntryDeclared(inputs: seq<ScopeInput>, byId: map<ScopeId, ScopeDef>, k: nat)
    requires k < |inputs|
  {
    var id := IdAt(inputs, k);
    id in byId && byId[id].name == inputs[k].name && byId[id].aliases == inputs[k].aliases
  }

  // Every ordinary input has an entry of its own; nothing else has one.
  ghost predicate IdsDeclared(inputs: seq<ScopeInput>, byId: map<ScopeId, ScopeDef>) {
    && (forall id :: id in byId <==> FIRST_ID <= id < FIRST_ID + Ordinary(inputs))
    && (forall k | 0 <= k < |inputs| && !IsSpecial(inputs[k]) :: EntryDeclared(inputs, byId, k))
  }

  function Resolved(byName: map<string, ScopeId>, names: seq<string>): seq<ScopeId> {
    if names == [] then []
    else
      var id := IdOf(byName, names[|names| - 1]);
      Resolved(byName, names[..|names| - 1]) + if id.Some? then [id.value] else []
  }

  // The parents given by the last input whose name resolves to the id.
  function ParentsGiven(inputs: seq<ScopeInput>, byName: map<string, ScopeId>, id: ScopeId): seq<ScopeId> {
    if inputs == [] then []
    else
      var last := inputs[|inputs| - 1];
      if IdOf(byName, last.name) == Some(id) then Resolved(byName, last.isSubscopeOf)
      else ParentsGiven(inputs[..|inputs| - 1], byName, id)
  }

  ghost predicate Built(inputs: seq<ScopeInput>, reg: ScopeRegistry) {
    && NamesDeclared(inputs, reg.byName)
    && IdsDeclared(inputs, reg.byId)
    && forall id | id in reg.byId :: reg.byId[id].subscopeOf == ParentsGiven(inputs, reg.byName, id)
  }

  // ------------------------------------------------------------------ the two loops

  lemma IdAtOneMore(inputs: seq<ScopeInput>, si: ScopeInput, k: nat)
    requires k < |inputs|
    ensures IdAt(inputs + [si], k) == IdAt(inputs, k)
  {
    assert (inputs + [si])[..k] == inputs[..k];
  }

  lemma {:induction false} OrdinaryGrows(inputs: seq<ScopeInput>, k: nat)
    requires k <= |inputs|
    ensures Ordinary(inputs[..k]) <= Ordinary(inputs)
    ensures k < |inputs| && !IsSpecial(inputs[k]) ==> Ordinary(inputs[..k]) < Ordinary(inputs)
  {
    if k == |inputs| {
      assert inputs[..k] == inputs;
    } else {
      var most := inputs[..|inputs| - 1];
      OrdinaryGrows(most, k);
      assert most[..k] == inputs[..k];
    }
  }

  lemma NameDeclared(
    inputs: seq<ScopeInput>, si: ScopeInput, byName: map<string, ScopeId>, after: map<string, ScopeId>)
    requires NamesDeclared(inputs, byName) && Named(byName, si, IdAt(inputs + [si], |inputs|), after)
    ensures NamesDeclared(inputs + [si], after)
  {
    var more := inputs + [si];
    assert more[..|more| - 1] == inputs && more[|more| - 1] == si;
    forall word
      ensures word in after <==> LastNamed(more, word).Some?
      ensures word in after ==> after[word] == IdAt(more, LastNamed(more, word).value)
    {
      if !IsNamed(si, word) && word in byName {
        IdAtOneMore(inputs, si, LastNamed(inputs, word).value);
      }
    }
  }

  lemma NewId(inputs: seq<ScopeInput>, si: ScopeInput)
    ensures Ordinary(inputs + [si]) == Ordinary(inputs) + if IsSpecial(si) then 0 else 1
    ensures !IsSpecial(si) ==> IdAt(inputs + [si], |inputs|) == FIRST_ID + Ordinary(inputs)
  {
    var more := inputs + [si];
    assert more[..|inputs|] == inputs && more[|more| - 1] == si;
  }

  lemma OldEntry(
    inputs: seq<ScopeInput>, si: ScopeInput, byId: map<ScopeId, ScopeDef>, k: nat, id: ScopeId, def: ScopeDef)
    requires k < |inputs| && !IsSpecial(inputs[k]) && EntryDeclared(inputs, byId, k)
    requires id == FIRST_ID + Ordinary(inputs)
    ensures EntryDeclared(inputs + [si], byId, k) && EntryDeclared(inputs + [si], byId[id := def], k)
  {
    IdAtOneMore(inputs, si, k);
    OrdinaryGrows(inputs, k);
  }

  lemma IdDeclared(inputs: seq<ScopeInput>, si: ScopeInput, byId: map<ScopeId, ScopeDef>, def: ScopeDef)
    requires IdsDeclared(inputs, byId) && def.name == si.name && def.aliases == si.aliases
    ensures IdsDeclared(inputs + [si], if IsSpecial(si) then byId else byId[FIRST_ID + Ordinary(inputs) := def])
  {
    var more := inputs + [si];
    var next := FIRST_ID + Ordinary(inputs);
    NewId(inputs, si);
    forall k | 0 <= k < |more| && !IsSpecial(more[k])
      ensures EntryDeclared(more, if IsSpecial(si) then byId else byId[next := def], k)
    {
      if k < |inputs| {
        assert more[k] == inputs[k];
        OldEntry(inputs, si, byId, k, next, def);
      }
    }
  }

  method DeclareNames(si: ScopeInput, id: ScopeId, byName: map<string, ScopeId>) returns (after: map<string, ScopeId>)
    ensures Named(byName, si, id, after)
  {
    after := byName[Lower(si.name) := id];
    for i := 0 to |si.aliases|
      invariant Named(byName, si.(aliases := si.aliases[..i]), id, after)
    {
      assert si.aliases[..i + 1] == si.aliases[..i] + [si.aliases[i]];
      after := after[Lower(si.aliases[i]) := id];
    }
    assert si.aliases[..|si.aliases|] == si.aliases;
  }

  // The tables when the inputs have been declared.
  ghost predicate Declared(
    inputs: seq<ScopeInput>, byName: map<string, ScopeId>, byId: map<ScopeId, ScopeDef>, nextId: ScopeId)
  {
    && NamesDeclared(inputs, byName) && IdsDeclared(inputs, byId)
    && nextId == FIRST_ID + Ordinary(inputs)
    && forall id | id in byId :: byId[id].subscopeOf == []
  }

  function IdGiven(si: ScopeInput, nextId: ScopeId): ScopeId {
    if IsNamed(si, "invalid") then SCOPE_INVALID else if IsNamed(si, "any") then SCOPE_ANY else nextId
  }

  lemma IdAtLast(inputs: seq<ScopeInput>, si: ScopeInput)
    ensures IdAt(inputs + [si], |inputs|) == IdGiven(si, FIRST_ID + Ordinary(inputs))
  {
    var more := inputs + [si];
    assert more[..|inputs|] == inputs && more[|inputs|] == si;
  }

  // `after` is `byName` with the names of one input set to its id.
  ghost predicate Named(byName: map<string, ScopeId>, si: ScopeInput, id: ScopeId, after: map<string, ScopeId>) {
    && (forall word :: word in after <==> word in byName || IsNamed(si, word))
    && (forall word | word in after :: after[word] == if IsNamed(si, word) then id else byName[word])
  }

  lemma DeclareKeeps(
    inputs: seq<ScopeInput>, si: ScopeInput, byName: map<string, ScopeId>, byId: map<ScopeId, ScopeDef>,
    nextId: ScopeId, after: map<string, ScopeId>)
    requires Declared(inputs, byName, byId, nextId) && Named(byName, si, IdGiven(si, nextId), after)
    ensures if IsSpecial(si) then Declared(inputs + [si], after, byId, nextId)
            else Declared(inputs + [si], after, byId[nextId := ScopeDef(si.name, si.aliases, [])], nextId + 1)
  {
    IdAtLast(inputs, si);
    NameDeclared(inputs, si, byName, after);
    NewId(inputs, si);
    IdDeclared(inputs, si, byId, ScopeDef(si.name, si.aliases, []));
  }

  method Declare(inputs: seq<ScopeInput>) returns (byName: map<string, ScopeId>, byId: map<ScopeId, ScopeDef>)
    ensures NamesDeclared(inputs, byName) && IdsDeclared(inputs, byId)
    ensures forall id | id in byId :: byId[id].subscopeOf == []
  {
    byName, byId := map[], map[];
    var nextId := FIRST_ID;
    for i := 0 to |inputs|
      invariant Declared(inputs[..i], byName, byId, nextId)
    {
      var si := inputs[i];
      assert inputs[..i + 1] == inputs[..i] + [si];
      var id := IdGiven(si, nextId);
      var after := DeclareNames(si, id, byName);
      DeclareKeeps(inputs[..i], si, byName, byId, nextId, after);
      byName := after;
      if !IsSpecial(si) {
        nextId := nextId + 1;
      }
      if id != SCOPE_ANY && id != SCOPE_INVALID {
        byId := byId[id := ScopeDef(si.name, si.aliases, [])];
      }
    }
    assert inputs[..|inputs|] == inputs;
  }

  method Link(inputs: seq<ScopeInput>, byName: map<string, ScopeId>, declared: map<ScopeId, ScopeDef>)
    returns (byId: map<ScopeId, ScopeDef>)
    requires forall id | id in declared :: declared[id].subscopeOf == []
    ensures byId.Keys == declared.Keys
    ensures forall id | id in byId ::
      byId[id] == declared[id].(subscopeOf := ParentsGiven(inputs, byName, id))
  {
    byId := declared;
    for i := 0 to |inputs|
      invariant byId.Keys == declared.Keys
      invariant forall id | id in byId ::
        byId[id] == declared[id].(subscopeOf := ParentsGiven(inputs[..i], byName, id))
    {
      assert inputs[..i + 1][..i] == inputs[..i];
      var id := IdOf(byName, inputs[i].name);
      if id.Some? && id.value in byId {
        byId := byId[id.value := byId[id.value].(subscopeOf := Resolved(byName, inputs[i].isSubscopeOf))];
      }
    }
    assert inputs[..|inputs|] == inputs;
  }

  method FromConfig(inputs: seq<ScopeInput>) returns (reg: ScopeRegistry)
    ensures Built(inputs, reg)
  {
    if inputs == [] {
      return ScopeRegistry(map[], map[]);
    }
    var byName, declared := Declare(inputs);
    var byId := Link(inputs, byName, declared);
    reg := ScopeRegistry(byId, byName);
  }

  // ------------------------------------------------------------------ what that promises

  // No two ordinary inputs share an id, however their names clash.
  lemma IdsAreDistinct(inputs: seq<ScopeInput>, i: nat, j: nat)
    requires i < j < |inputs| && !IsSpecial(inputs[i]) && !IsSpecial(inputs[j])
    ensures IdAt(inputs, i) < IdAt(inputs, j)
  {
    OrdinaryGrows(inputs[..j], i);
    assert inputs[..j][..i] == inputs[..i];
  }

  lemma LowerUnless(s: string)
    ensures Lower(s) == s || exists c | c in s :: 'A' <= c <= 'Z'
  {
    if Lower(s) != s {
      var i :| 0 <= i < |s| && Lower(s)[i] != s[i];
      assert s[i] in s;
    }
  }

  // A name resolves whatever its case and the blanks around it, to the last input that goes by it;
  // the wildcard's and the invalid scope's words cannot be taken over.
  lemma NameResolves(inputs: seq<ScopeInput>, reg: ScopeRegistry, name: string)
    requires Built(inputs, reg)
    ensures var word := Lower(Trim(name));
            IdOf(reg.byName, name) ==
              if word in {"any", "all", "none"} then Some(SCOPE_ANY)
              else if word == "invalid" then Some(SCOPE_INVALID)
              else if LastNamed(inputs, word).Some? then Some(IdAt(inputs, LastNamed(inputs, word).value))
              else None
    ensures IdOf(reg.byName, Lower(name)) == IdOf(reg.byName, name)
  {
    TrimLower(name);
    ResolvesByWord(inputs, reg, name);
    ResolvesByWord(inputs, reg, Lower(name));
    TrimLower(Trim(name));
  }

  lemma ResolvesByWord(inputs: seq<ScopeInput>, reg: ScopeRegistry, name: string)
    requires Built(inputs, reg)
    ensures var word := Lower(Trim(name));
            IdOf(reg.byName, name) ==
              if word in {"any", "all", "none"} then Some(SCOPE_ANY)
              else if word == "invalid" then Some(SCOPE_INVALID)
              else if word in reg.byName then Some(reg.byName[word])
              else None
  {
    var trimmed := Trim(name);
    LowerUnless(trimmed);
    if trimmed in reg.byName {
      var k := LastNamed(inputs, trimmed).value;
      TrimLower(inputs[k].name);
      forall a | a in inputs[k].aliases ensures Lower(Lower(a)) == Lower(a) { TrimLower(a); }
      assert Lower(trimmed) == trimmed;
    }
  }

  lemma {:induction false} LastGiverWins(inputs: seq<ScopeInput>, byName: map<string, ScopeId>, id: ScopeId, k: nat)
    requires k < |inputs| && IdOf(byName, inputs[k].name) == Some(id)
    requires forall j | k < j < |inputs| :: IdOf(byName, inputs[j].name) != Some(id)
    ensures ParentsGiven(inputs, byName, id) == Resolved(byName, inputs[k].isSubscopeOf)
  {
    if k < |inputs| - 1 {
      LastGiverWins(inputs[..|inputs| - 1], byName, id, k);
    }
  }

  lemma {:induction false} ResolvedHolds(byName: map<string, ScopeId>, names: seq<string>, name: string)
    requires name in names && IdOf(byName, name).Some?
    ensures IdOf(byName, name).value in Resolved(byName, names)
  {
    if names[|names| - 1] != name {
      assert names == names[..|names| - 1] + [names[|names| - 1]];
      ResolvedHolds(byName, names[..|names| - 1], name);
    }
  }

  // A declared parent is an ancestor in the built registry when no later input takes the scope's name.
  lemma DeclaredParentIsAncestor(
    inputs: seq<ScopeInput>, reg: ScopeRegistry, k: nat, id: ScopeId, parentName: string, parent: ScopeId)
    requires Built(inputs, reg) && k < |inputs| && parentName in inputs[k].isSubscopeOf
    requires IdOf(reg.byName, inputs[k].name) == Some(id) && id in reg.byId
    requires IdOf(reg.byName, parentName) == Some(parent)
    requires forall j | k < j < |inputs| :: IdOf(reg.byName, inputs[j].name) != Some(id)
    ensures SubscopeOrEq(reg, id, parent)
  {
    LastGiverWins(inputs, reg.byName, id, k);
    ResolvedHolds(reg.byName, inputs[k].isSubscopeOf, parentName);
    ReachesItself(reg, id);
    ReachesParent(reg, id, id, parent);
  }

  lemma {:induction false} ParentsNeedAGiver(inputs: seq<ScopeInput>, byName: map<string, ScopeId>, id: ScopeId)
    requires forall j | 0 <= j < |inputs| :: IdOf(byName, inputs[j].name) != Some(id)
    ensures ParentsGiven(inputs, byName, id) == []
  {
    if inputs != [] {
      ParentsNeedAGiver(inputs[..|inputs| - 1], byName, id);
    }
  }

  const RESERVED: set<string> := {"any", "all", "none", "invalid"}

  // The name of input j leads to the entry of input k.
  predicate NamesEntry(inputs: seq<ScopeInput>, j: nat, k: nat)
    requires j < |inputs|
  {
    var word := Lower(Trim(inputs[j].name));
    word !in RESERVED && LastNamed(inputs, word) == Some(k)
  }

  lemma NamesEntryExactly(inputs: seq<ScopeInput>, reg: ScopeRegistry, j: nat, k: nat)
    requires Built(inputs, reg) && j < |inputs| && k < |inputs| && !IsSpecial(inputs[k])
    ensures IdOf(reg.byName, inputs[j].name) == Some(IdAt(inputs, k)) <==> NamesEntry(inputs, j, k)
  {
    var word := Lower(Trim(inputs[j].name));
    ResolvesByWord(inputs, reg, inputs[j].name);
    IdIsOwn(inputs, k, k);
    if word in RESERVED {
      assert IdOf(reg.byName, inputs[j].name).value < FIRST_ID;
    } else if word in reg.byName {
      var last := LastNamed(inputs, word).value;
      assert IdOf(reg.byName, inputs[j].name) == Some(IdAt(inputs, last));
      IdIsOwn(inputs, last, k);
    } else {
      assert LastNamed(inputs, word).None?;
    }
  }

  lemma IdIsOwn(inputs: seq<ScopeInput>, i: nat, k: nat)
    requires i < |inputs| && k < |inputs| && !IsSpecial(inputs[k])
    ensures IdAt(inputs, i) == IdAt(inputs, k) <==> i == k
    ensures IdAt(inputs, k) >= FIRST_ID
  {
    if !IsSpecial(inputs[i]) {
      if i < k { IdsAreDistinct(inputs, i, k); }
      if k < i { IdsAreDistinct(inputs, k, i); }
    }
  }

  // An input whose own name does not lead to its entry, nor any other input's name, keeps an id and
  // its aliases, but the entry has no parents.
  lemma ShadowedInputHasNoParents(inputs: seq<ScopeInput>, reg: ScopeRegistry, k: nat)
    requires Built(inputs, reg) && k < |inputs| && !IsSpecial(inputs[k])
    requires forall j | 0 <= j < |inputs| :: !NamesEntry(inputs, j, k)
    ensures IdAt(inputs, k) in reg.byId && Parents(reg, IdAt(inputs, k)) == []
  {
    forall j | 0 <= j < |inputs|
      ensures IdOf(reg.byName, inputs[j].name) != Some(IdAt(inputs, k))
    {
      NamesEntryExactly(inputs, reg, j, k);
    }
    assert EntryDeclared(inputs, reg.byId, k);
    ParentsNeedAGiver(inputs, reg.byName, IdAt(inputs, k));
  }

  // What a script sees of that: an alias still resolves to the scope, and the scope is a subscope of
  // nothing but itself and the wildcard, whatever parents were declared.
  lemma AliasOutlivesParents(inputs: seq<ScopeInput>, reg: ScopeRegistry, k: nat, aliasWord: string, target: ScopeId)
    requires Built(inputs, reg) && k < |inputs| && !IsSpecial(inputs[k])
    requires forall j | 0 <= j < |inputs| :: !NamesEntry(inputs, j, k)
    requires aliasWord !in RESERVED && Lower(Trim(aliasWord)) == aliasWord && LastNamed(inputs, aliasWord) == Some(k)
    requires target != SCOPE_ANY && target != IdAt(inputs, k)
    ensures IdOf(reg.byName, aliasWord) == Some(IdAt(inputs, k))
    ensures !SubscopeOrEq(reg, IdAt(inputs, k), target)
  {
    NameResolves(inputs, reg, aliasWord);
    ShadowedInputHasNoParents(inputs, reg, k);
    WildcardIsNoStep(reg, IdAt(inputs, k), target);
  }

  // The same names declared, perhaps with other parents.
  predicate SameNames(inputs: seq<ScopeInput>, others: seq<ScopeInput>) {
    && |inputs| == |others|
    && forall i | 0 <= i < |inputs| :: inputs[i].name == others[i].name && inputs[i].aliases == others[i].aliases
  }

  // The input's own name leads to its entry, and no later input's name does.
  predicate KeepsParents(inputs: seq<ScopeInput>, k: nat)
    requires k < |inputs|
  {
    NamesEntry(inputs, k, k) && forall j | k < j < |inputs| :: !NamesEntry(inputs, j, k)
  }

  ghost predicate ParentsKept(others: seq<ScopeInput>, reg: ScopeRegistry, k: nat)
    requires k < |others|
  {
    Parents(reg, IdAt(others, k)) == Resolved(reg.byName, others[k].isSubscopeOf)
  }

  // An ordinary input gets the parents it declares, whatever parents the inputs declare, exactly when
  // its name leads to its own entry and no later input's name does.
  lemma ParentsKeptExactly(inputs: seq<ScopeInput>, reg: ScopeRegistry, k: nat)
    requires Built(inputs, reg) && k < |inputs| && !IsSpecial(inputs[k])
    ensures KeepsParents(inputs, k) <==>
            forall others, reg' | SameNames(inputs, others) && Built(others, reg') :: ParentsKept(others, reg', k)
  {
    if KeepsParents(inputs, k) {
      forall others, reg' | SameNames(inputs, others) && Built(others, reg')
        ensures ParentsKept(others, reg', k)
      {
        SameNamesSameEntries(inputs, others, k);
        KeptWhenNamed(others, reg', k);
      }
    } else {
      var others := OnlyParent(inputs, k);
      var reg' := Relinked(others, reg);
      RelinkedIsBuilt(inputs, others, reg);
      SameNamesSameEntries(inputs, others, k);
      LostUnlessNamed(others, reg', k);
      AnyResolves(reg.byName);
      assert !ParentsKept(others, reg', k);
    }
  }

  lemma {:induction false} LastNamedAlike(inputs: seq<ScopeInput>, others: seq<ScopeInput>, word: string)
    requires SameNames(inputs, others)
    ensures LastNamed(inputs, word) == LastNamed(others, word)
  {
    if inputs != [] {
      LastNamedAlike(inputs[..|inputs| - 1], others[..|others| - 1], word);
    }
  }

  lemma {:induction false} OrdinaryAlike(inputs: seq<ScopeInput>, others: seq<ScopeInput>)
    requires SameNames(inputs, others)
    ensures Ordinary(inputs) == Ordinary(others)
  {
    if inputs != [] {
      OrdinaryAlike(inputs[..|inputs| - 1], others[..|others| - 1]);
    }
  }

  lemma IdAtAlike(inputs: seq<ScopeInput>, others: seq<ScopeInput>, k: nat)
    requires SameNames(inputs, others) && k < |inputs|
    ensures IdAt(inputs, k) == IdAt(others, k)
  {
    OrdinaryAlike(inputs[..k], others[..k]);
  }

  lemma SameNamesSameEntries(inputs: seq<ScopeInput>, others: seq<ScopeInput>, k: nat)
    requires SameNames(inputs, others) && k < |inputs|
    ensures KeepsParents(inputs, k) <==> KeepsParents(others, k)
    ensures IdAt(inputs, k) == IdAt(others, k) && IsSpecial(inputs[k]) == IsSpecial(others[k])
  {
    IdAtAlike(inputs, others, k);
    forall j | 0 <= j < |inputs|
      ensures NamesEntry(inputs, j, k) <==> NamesEntry(others, j, k)
    {
      LastNamedAlike(inputs, others, Lower(Trim(inputs[j].name)));
    }
  }

  lemma KeptWhenNamed(inputs: seq<ScopeInput>, reg: ScopeRegistry, k: nat)
    requires Built(inputs, reg) && k < |inputs| && !IsSpecial(inputs[k]) && KeepsParents(inputs, k)
    ensures ParentsKept(inputs, reg, k)
  {
    forall j | k <= j < |inputs|
      ensures IdOf(reg.byName, inputs[j].name) == Some(IdAt(inputs, k)) <==> NamesEntry(inputs, j, k)
    {
      NamesEntryExactly(inputs, reg, j, k);
    }
    assert EntryDeclared(inputs, reg.byId, k);
    LastGiverWins(inputs, reg.byName, IdAt(inputs, k), k);
  }

  // The same names with no parent at all but the wildcard for input k.
  function OnlyParent(inputs: seq<ScopeInput>, k: nat): (others: seq<ScopeInput>)
    ensures SameNames(inputs, others)
    ensures forall i | 0 <= i < |others| :: others[i].isSubscopeOf == if i == k then ["any"] else []
  {
    seq(|inputs|, i requires 0 <= i < |inputs| => inputs[i].(isSubscopeOf := if i == k then ["any"] else []))
  }

  // The registry with the parents that other declarations of the same names give.
  function Relinked(others: seq<ScopeInput>, reg: ScopeRegistry): ScopeRegistry {
    reg.(byId := map id | id in reg.byId :: reg.byId[id].(subscopeOf := ParentsGiven(others, reg.byName, id)))
  }

  lemma RelinkedIsBuilt(inputs: seq<ScopeInput>, others: seq<ScopeInput>, reg: ScopeRegistry)
    requires Built(inputs, reg) && SameNames(inputs, others)
    ensures Built(others, Relinked(others, reg))
  {
    var reg' := Relinked(others, reg);
    forall word
      ensures word in reg.byName <==> LastNamed(others, word).Some?
      ensures word in reg.byName ==> reg.byName[word] == IdAt(others, LastNamed(others, word).value)
    {
      LastNamedAlike(inputs, others, word);
      if word in reg.byName {
        IdAtAlike(inputs, others, LastNamed(inputs, word).value);
      }
    }
    OrdinaryAlike(inputs, others);
    forall k | 0 <= k < |others| && !IsSpecial(others[k])
      ensures EntryDeclared(others, reg'.byId, k)
    {
      IdAtAlike(inputs, others, k);
      assert EntryDeclared(inputs, reg.byId, k);
    }
  }

  lemma AnyResolves(byName: map<string, ScopeId>)
    ensures Resolved(byName, ["any"]) == [SCOPE_ANY]
  {
    assert Trim("any") == "any" && Lower("any") == "any";
    assert ["any"][..0] == [];
  }

  lemma LostUnlessNamed(others: seq<ScopeInput>, reg: ScopeRegistry, k: nat)
    requires Built(others, reg) && k < |others| && !IsSpecial(others[k]) && !KeepsParents(others, k)
    requires forall j | 0 <= j < |others| && j != k :: others[j].isSubscopeOf == []
    ensures Parents(reg, IdAt(others, k)) == []
  {
    forall j | 0 <= j < |others|
      ensures IdOf(reg.byName, others[j].name) == Some(IdAt(others, k)) <==> NamesEntry(others, j, k)
    {
      NamesEntryExactly(others, reg, j, k);
    }
    assert EntryDeclared(others, reg.byId, k);
    NothingGiven(others, reg.byName, IdAt(others, k), k);
  }

  lemma {:induction false} NothingGiven(others: seq<ScopeInput>, byName: map<string, ScopeId>, id: ScopeId, k: nat)
    requires forall j | 0 <= j < |others| && j != k :: others[j].isSubscopeOf == []
    requires (k < |others| && IdOf(byName, others[k].name) == Some(id)) ==>
               exists j | k < j < |others| :: IdOf(byName, others[j].name) == Some(id)
    ensures ParentsGiven(others, byName, id) == []
  {
    if others != [] && IdOf(byName, others[|others| - 1].name) != Some(id) {
      var most := others[..|others| - 1];
      if k < |most| && IdOf(byName, most[k].name) == Some(id) {
        var j :| k < j < |others| && IdOf(byName, others[j].name) == Some(id);
        assert most[j] == others[j];
      }
      NothingGiven(most, byName, id, k);
    }
  }

  // The wildcard and the invalid scope have no entry, so no chain leads on from them: a chain that
  // names the wildcard as a parent ends there.
  lemma WildcardIsDeadEnd(inputs: seq<ScopeInput>, reg: ScopeRegistry, path: seq<ScopeId>, i: nat)
    requires Built(inputs, reg) && Chain(reg, path) && i < |path|
    requires path[i] == SCOPE_ANY || path[i] == SCOPE_INVALID
    ensures i == |path| - 1
  {
    assert i + 1 < |path| ==> path[i + 1] in Parents(reg, path[i]);
  }
}
