# C snippet extractor core, modelled in Dafny

This project models the three pieces of logic in the snippet extractor's
core: the nested-scope symbol table (`typemap.py`), classifier loading
and top-N selection (`classify.py`), and the scope-tracking tree walker
(`visitors.py`). It proves properties of each model.

- `typemap.dfy` (module `Typemap`). The class `Typemap` holds the two
  dictionaries of the source: `typemapMap` (scope id to a map from name
  to type) and `parentMap` (scope id to parent id). File scope `-1` is
  registered at creation and is its own parent. `Lookup` is the source's
  `while` loop over the parent chain. It is proved against `Walk`, a
  function over the two maps that takes at most `fuel` parent steps. The
  lemmas show four things. The result is the binding of the nearest scope
  on the chain that binds the name, or None when no scope up to file scope
  binds it. Scopes that are not on the chain are never consulted. A lookup
  terminates when the chain reaches file scope through registered scopes.
  A lookup that reaches a parent cycle, of any length, on which no scope
  binds the name runs forever. The KeyError the source raises for
  an unregistered scope is the result `KeyError(scope)`.
- `classify.dfy` (module `Classify`). `Score` is the constant default
  classifier. `LoadClassifier` looks a classifier up by name. `ScoreAll`
  is the scoring loop. `RankByScore` is Python's stable
  `sorted(..., reverse=True)` on scores. `PrefixSlice` is Python's
  `[:N]`. `GenerateOptions` puts these together. The ranking is proved to
  be a stable sort: its output is sorted by score descending, is a
  permutation of its input, and keeps equal scores in input order. With
  the default classifier, the selection is the first N candidates in
  input order.
- `visitors.dfy` (module `Visitors`). A node is a datatype with a kind,
  ordered children with their roles, and an identity that stands in for
  `_id_for`. The class `ScopedNodeVisitor` keeps the two lazily created
  handler caches as fields. Its methods return the handler calls they make
  as a list of events. The method contracts tie that list to the function
  `VisitTrace`. The lemmas prove four things about a fully generic walk.
  It visits the nodes in pre-order and unvisits them in post-order. It
  hands every child its parent's identity. It brackets each node's events
  between its visit and its unvisit.
- `wrappers.dfy` (module `Wrappers`) holds `Option` and `Result`.

Scores are modelled as `real`. The source only compares them. The snips
that `generate_options` scores come in as an abstract sequence, as do the
handler tables of a visitor subclass.

Behaviour of the source that the model keeps:
- `[:N]` with a negative N drops the last |N| candidates
  (classify.py, the slice in `generate_options`).
- Sub-function mode raises Unimplemented.
- `visit` dispatches on every node it is given.
- Every child is visited with the identity of its parent node
  (`generic_visit`, visitors.py:49-51).

## Model

| member | source | states |
|---|---|---|
| `Typemap.Typemap.constructor` | typemap.py:2-7 | a fresh table holds only scope -1, with no bindings and itself as parent |
| `Typemap.Typemap.AddNest` | typemap.py:9-11 | registers `id` with an empty binding map and parent `parentId` (default -1), wiping earlier bindings of `id`; no other scope changes |
| `Typemap.Typemap.AddType` | typemap.py:17-18 | binds `name` to `t` in scope `nestId` only, overwriting an earlier binding there; an unregistered scope is a KeyError and changes nothing |
| `Typemap.Typemap.Lookup` | typemap.py:20-32 | returns the outcome of the walk up the parent chain (binding, None or KeyError) whenever the walk stops, and changes neither map |
| `Typemap.WalkAgrees` | typemap.py:21-27 | once the walk has stopped, its outcome does not depend on how many more steps are allowed, so the lookup result is well defined |
| `Typemap.FoundIsNearestBinding` | typemap.py:21-27 | lookup returns `t` exactly when the nearest scope on the chain s, parent(s), ... that binds the name binds it to `t`, with every scope before it registered and not the file scope: inner bindings shadow outer ones |
| `Typemap.NotFoundIsUnboundToRoot` | typemap.py:21-32 | lookup returns None exactly when the walk passes registered scopes up to file scope and no scope on the way, file scope included, binds the name |
| `Typemap.OffChainScopesInvisible` | typemap.py:21-29 | changing the bindings of a scope that is neither `s` nor an ancestor of `s` (sibling, descendant, unrelated) changes no lookup from `s` |
| `Typemap.LookupAfterAddType` | typemap.py:17-24 | immediately after `add_type(name, t, s)`, `lookup(name, s)` returns `t` |
| `Typemap.AddTypeKeepsOtherNames` | typemap.py:17-32 | `add_type(name, t, s)` changes no lookup of another name from any scope |
| `Typemap.ChainToRootTerminates` | typemap.py:21-27 | when the parent chain from `s` reaches -1 through registered scopes in `k` steps, every lookup from `s` stops within `k` steps |
| `Typemap.CycleNeverTerminates` | typemap.py:9-27 | `add_nest` accepts any parent, so the parent chain can form a cycle; when the chain from `s` returns to `s` after `p > 0` links and no scope on the way is file scope or binds the name, the walk from `s` gives None at every fuel, so the lookup never stops |
| `Typemap.ShadowingExample` | typemap.py:20-32 | on a concrete table: an inner rebinding shadows file scope, a sibling's binding is invisible, and an unregistered scope is a KeyError |
| `Classify.Score` | classify.py:15-17 | the score lies between 0 and 1, and the default classifier gives 1.0 for every input |
| `Classify.LoadClassifier` | classify.py:30-34 | succeeds exactly for the name `DefaultClassifier`, and raises Unimplemented otherwise |
| `Classify.ScoreAll` | classify.py:48-52 | scores each snip exactly once and records the (snip, score) pairs in input order |
| `Classify.PrefixSlice` | classify.py:58 | Python's `[:n]`: a prefix of length min(n, len) for n >= 0, and for n < 0 the input without its last -n elements |
| `Classify.RankIsStableSort` | classify.py:55 | the ranking is sorted by score descending, is a permutation of its input (pairs and snips), and keeps equal scores in input order |
| `Classify.EqualScoresKeepOrder` | classify.py:55 | when all scores are equal, the ranking is the input order |
| `Classify.SelectionIsBestFirst` | classify.py:55-58 | the selected pairs have non-increasing scores, each selected score is at least every unselected one, and the selected snips are a sub-multiset of the input (no snip returned twice) |
| `Classify.DefaultSelectsInputPrefix` | classify.py:48-58 | with the default classifier the result is the first N candidates in input order (Python slice semantics for N) |
| `Classify.GenerateOptions` | classify.py:36-59 | fails with Unimplemented exactly for an unknown classification mode (checked before any scoring) or sub-function mode, and otherwise returns the top N snips of the stable descending ranking, which is Python's `functions[:N]` in input order |
| `Visitors.GenericVisitsInPreOrder` | visitors.py:48-53 | with no `visit_<Kind>` handlers, the walk visits every node exactly once, in pre-order |
| `Visitors.GenericUnvisitsInPostOrder` | visitors.py:48-53 | with no `visit_<Kind>` handlers, the walk unvisits every node exactly once, in post-order, after all of its descendants |
| `Visitors.ChildVisitedWithParentIdentity` | visitors.py:49-51 | a generically visited node visits each of its children with the node's own identity as the visit id |
| `Visitors.ChildTraceInPlace` | visitors.py:48-51 | in a generic visit of a node, the visit of child `i` comes right after the node's own visit and the visits of the children before it, whole and under the node's identity |
| `Visitors.GenericVisitIsBracketed` | visitors.py:48-53 | a generic visit opens with the node's visit and closes with its unvisit, both with the id the node was visited with |
| `Visitors.ChildGetsParentIdentityExample` | visitors.py:49-51 | on a concrete block with one declaration, the declaration receives the block's identity, not its own or the block's visit id |
| `Visitors.ScopedNodeVisitor.constructor` | visitors.py:12-14 | a new visitor has neither cache created |
| `Visitors.ScopedNodeVisitor.StartVisit` | visitors.py:19-20 | visits the node with its own identity |
| `Visitors.ScopedNodeVisitor.Visit` | visitors.py:22-33 | creates the visit cache if absent; reuses a cached handler or resolves `visit_<Kind>`, falling back to generic, and caches it; entries are only added; the calls made are those of `VisitTrace` |
| `Visitors.ScopedNodeVisitor.Unvisit` | visitors.py:35-46 | the same dispatch over its own separate cache, leaving the visit cache unchanged; `generic_unvisit` does nothing |
| `Visitors.ScopedNodeVisitor.GenericVisit` | visitors.py:48-53 | visits the children in order with the parent's identity, then unvisits the node once with `thisId`; only the two caches change, and the visit cache exists afterwards exactly when it existed before or the node has a child |
| `Visitors.ScopedNodeVisitor.VisitChildren` | visitors.py:49-51 | the loop of `generic_visit`: visits every child in order, each with the parent's identity, and adds to the caches exactly the kinds it dispatched; the visit cache exists afterwards exactly when it existed before or there is a child |

## Left out

- `load_code` (classify.py:19-28): C preprocessing, writing a file and parsing with pyclibrary are I/O and foreign libraries. The candidate functions `code.defs['functions']` come in as an abstract sequence.
- `output_options` and the command-line block (classify.py:61-88): filesystem work and argument parsing.
- `breakpoint()` (classify.py:40, 69): a debugger hook. It is treated as doing nothing.
- Floating-point scores: only their order matters, so they are `real`.
- `Typemap.unnest` (typemap.py:13-15): it takes no scope argument and deletes the key `id`, which is Python's builtin function, so every call raises KeyError. It is not modelled.
- `DefinitionMap` (typemap.py:35-50): it is declared with `def` and takes one positional argument. Calling it with no argument raises TypeError, and calling it with one argument returns None. Its inner functions never run.
- Typemap.Typemap.Lookup: requires that the walk stops. The source loops forever when the walk reaches a parent cycle without finding the name, and `CycleNeverTerminates` shows that case. A binding found on the cycle still ends the lookup.
- `_id_for` and `id_for` (visitors.py:6-7, 16-17): the hash of a node is the `identity` field of `Node`.
- `getattr` reflection (visitors.py:29, 42): it is a fixed table of the kinds that have their own handlers (`Handlers`).
- Handlers that a subclass defines (`visit_<Kind>`, `unvisit_<Kind>`): their bodies are not part of this model. Only the call is recorded. What such a handler does next, such as calling `generic_visit` itself, is not traced.
- The loop of `generic_visit` is its own method, `VisitChildren`. This keeps each proof small. The calls it makes are the same.
- The cache fields are per visitor. The source declares them as class attributes set to None and creates a per-instance dictionary on first use. The model keeps only the per-instance behaviour.
- Classify.GenerateOptions: that an unknown mode raises "before any snip is scored" shows only in the order of statements, because scoring has no effect in the model.
