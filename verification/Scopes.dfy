// Subscope reachability over a scope registry (scope_registry.rs), whose hierarchy may be cyclic.
module Scopes {
  type ScopeId = nat

  const SCOPE_ANY: ScopeId := 0
  const SCOPE_INVALID: ScopeId := 1

  datatype ScopeDef = ScopeDef(name: string, aliases: seq<string>, subscopeOf: seq<ScopeId>)

  datatype ScopeRegistry = ScopeRegistry(byId: map<ScopeId, ScopeDef>, byName: map<string, ScopeId>)

  function Parents(reg: ScopeRegistry, id: ScopeId): seq<ScopeId> {
    if id in reg.byId then reg.byId[id].subscopeOf else []
  }

  // A chain of declared `subscope_of` steps.
  ghost predicate Chain(reg: ScopeRegistry, path: seq<ScopeId>) {
    && path != []
    && forall i | 0 < i < |path| :: path[i] in Parents(reg, path[i - 1])
  }

  ghost predicate Reaches(reg: ScopeRegistry, from: ScopeId, to: ScopeId) {
    exists path :: Chain(reg, path) && path[0] == from && path[|path| - 1] == to
  }

  ghost predicate SubscopeOrEq(reg: ScopeRegistry, current: ScopeId, target: ScopeId) {
    current == SCOPE_ANY || target == SCOPE_ANY || Reaches(reg, current, target)
  }

  lemma ReachesItself(reg: ScopeRegistry, id: ScopeId)
    ensures Reaches(reg, id, id)
  {
    assert Chain(reg, [id]);
  }

  lemma ReachesParent(reg: ScopeRegistry, from: ScopeId, id: ScopeId, parent: ScopeId)
    requires Reaches(reg, from, id) && parent in Parents(reg, id)
    ensures Reaches(reg, from, parent)
  {
    var path :| Chain(reg, path) && path[0] == from && path[|path| - 1] == id;
    assert Chain(reg, path + [parent]);
  }

  // A set that is closed under `subscope_of` cannot be left.
  lemma {:induction false} ClosedContains(reg: ScopeRegistry, closed: set<ScopeId>, path: seq<ScopeId>)
    requires forall id, p | id in closed && p in Parents(reg, id) :: p in closed
    requires Chain(reg, path) && path[0] in closed
    ensures path[|path| - 1] in closed
    decreases |path|
  {
    if |path| > 1 {
      assert path[1] in Parents(reg, path[0]);
      assert forall i | 0 < i < |path[1..]| :: path[1..][i - 1] == path[i] && path[1..][i] == path[i + 1];
      ClosedContains(reg, closed, path[1..]);
    }
  }

  // Every id the walk from `current` can ever meet.
  function Universe(reg: ScopeRegistry, current: ScopeId): set<ScopeId> {
    {current} + set id, p | id in reg.byId && p in reg.byId[id].subscopeOf :: p
  }

  function Elements(s: seq<ScopeId>): set<ScopeId> { set x | x in s }

  // What holds between two iterations: everything met is reachable, everything seen has its parents
  // seen or waiting, and the target has not been seen.
  ghost predicate Searching(
    reg: ScopeRegistry, current: ScopeId, target: ScopeId, stack: seq<ScopeId>, seen: seq<ScopeId>)
  {
    && (current in seen || current in stack)
    && (forall id | id in stack || id in seen :: Reaches(reg, current, id) && id in Universe(reg, current))
    && (forall id, p | id in seen && p in Parents(reg, id) :: p in seen || p in stack)
    && target !in seen
  }

  lemma VisitKeepsSearching(
    reg: ScopeRegistry, current: ScopeId, target: ScopeId, stack: seq<ScopeId>, seen: seq<ScopeId>)
    requires Searching(reg, current, target, stack, seen) && stack != []
    requires var c := stack[|stack| - 1]; c != target && c !in seen
    ensures var c := stack[|stack| - 1];
            Searching(reg, current, target, stack[..|stack| - 1] + Parents(reg, c), seen + [c])
  {
    var c := stack[|stack| - 1];
    var rest := stack[..|stack| - 1];
    assert stack == rest + [c];
    forall p | p in Parents(reg, c)
      ensures Reaches(reg, current, p) && p in Universe(reg, current)
    {
      ReachesParent(reg, current, c, p);
    }
  }

  lemma SkipKeepsSearching(
    reg: ScopeRegistry, current: ScopeId, target: ScopeId, stack: seq<ScopeId>, seen: seq<ScopeId>)
    requires Searching(reg, current, target, stack, seen) && stack != [] && stack[|stack| - 1] in seen
    ensures Searching(reg, current, target, stack[..|stack| - 1], seen)
  {
    assert stack == stack[..|stack| - 1] + [stack[|stack| - 1]];
  }

  // An empty stack means that what was seen is closed, and so holds all that can be reached.
  lemma SearchExhausted(reg: ScopeRegistry, current: ScopeId, target: ScopeId, seen: seq<ScopeId>)
    requires Searching(reg, current, target, [], seen)
    ensures !Reaches(reg, current, target)
  {
    if path :| Chain(reg, path) && path[0] == current && path[|path| - 1] == target {
      ClosedContains(reg, Elements(seen), path);
      assert false;
    }
  }

  method IsSubscopeOrEq(reg: ScopeRegistry, current: ScopeId, target: ScopeId) returns (r: bool)
    ensures r <==> SubscopeOrEq(reg, current, target)
  {
    ReachesItself(reg, current);
    if current == target || current == SCOPE_ANY || target == SCOPE_ANY {
      return true;
    }
    var stack := [current];
    var seen: seq<ScopeId> := [];
    while stack != []
      invariant Searching(reg, current, target, stack, seen)
      decreases |Universe(reg, current) - Elements(seen)|, |stack|
    {
      var c := stack[|stack| - 1];
      if c == target {
        return true;
      }
      if c in seen {
        SkipKeepsSearching(reg, current, target, stack, seen);
        stack := stack[..|stack| - 1];
        continue;
      }
      VisitKeepsSearching(reg, current, target, stack, seen);
      SeenGrows(Universe(reg, current), seen, c);
      stack := stack[..|stack| - 1] + Parents(reg, c);
      seen := seen + [c];
    }
    SearchExhausted(reg, current, target, seen);
    return false;
  }

  lemma SeenGrows(universe: set<ScopeId>, seen: seq<ScopeId>, c: ScopeId)
    requires c in universe && c !in seen
    ensures |universe - Elements(seen + [c])| < |universe - Elements(seen)|
  {
    assert universe - Elements(seen) == (universe - Elements(seen + [c])) + {c};
  }

  // Away from the wildcard the relation is a preorder, whatever cycles the registry has.
  lemma SubscopeIsPreorder(reg: ScopeRegistry, a: ScopeId, b: ScopeId, c: ScopeId)
    ensures SubscopeOrEq(reg, a, a)
    ensures b != SCOPE_ANY && SubscopeOrEq(reg, a, b) && SubscopeOrEq(reg, b, c) ==> SubscopeOrEq(reg, a, c)
  {
    ReachesItself(reg, a);
    if Reaches(reg, a, b) && Reaches(reg, b, c) {
      var p :| Chain(reg, p) && p[0] == a && p[|p| - 1] == b;
      var q :| Chain(reg, q) && q[0] == b && q[|q| - 1] == c;
      var path := p + q[1..];
      forall i | 0 < i < |path|
        ensures path[i] in Parents(reg, path[i - 1])
      {
        if i >= |p| {
          assert path[i] == q[i - |p| + 1] && path[i - 1] == q[i - |p|];
        }
      }
      assert Chain(reg, path);
    }
  }

  // The wildcard is not a step of such a preorder: it is related to every id both ways, while a scope
  // without parents stays unrelated to every other id.
  lemma WildcardIsNoStep(reg: ScopeRegistry, a: ScopeId, c: ScopeId)
    requires a != c && a != SCOPE_ANY && c != SCOPE_ANY && Parents(reg, a) == []
    ensures SubscopeOrEq(reg, a, SCOPE_ANY) && SubscopeOrEq(reg, SCOPE_ANY, c)
    ensures !SubscopeOrEq(reg, a, c)
  {
    if path :| Chain(reg, path) && path[0] == a && path[|path| - 1] == c {
      ClosedContains(reg, {a}, path);
      assert false;
    }
  }

  // An id past every id that has an entry.
  lemma {:induction false} PastEntries(ids: set<ScopeId>) returns (bound: ScopeId)
    ensures bound > SCOPE_ANY && forall id | id in ids :: id < bound
    decreases |ids|
  {
    bound := 1;
    if ids != {} {
      var id :| id in ids;
      var rest := PastEntries(ids - {id});
      bound := if id < rest then rest else id + 1;
      assert ids == (ids - {id}) + {id};
    }
  }

  ghost predicate TransitiveThrough(reg: ScopeRegistry, b: ScopeId) {
    forall a, c :: SubscopeOrEq(reg, a, b) && SubscopeOrEq(reg, b, c) ==> SubscopeOrEq(reg, a, c)
  }

  // In every registry, cyclic or not, the relation is transitive through an id exactly when the id is
  // not the wildcard.
  lemma TransitiveExactly(reg: ScopeRegistry, b: ScopeId)
    ensures TransitiveThrough(reg, b) <==> b != SCOPE_ANY
  {
    if b != SCOPE_ANY {
      forall a, c | SubscopeOrEq(reg, a, b) && SubscopeOrEq(reg, b, c)
        ensures SubscopeOrEq(reg, a, c)
      {
        SubscopeIsPreorder(reg, a, b, c);
      }
    } else {
      var bound := PastEntries(reg.byId.Keys);
      WildcardIsNoStep(reg, bound, bound + 1);
    }
  }
}
