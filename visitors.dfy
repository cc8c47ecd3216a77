/**
 * The scope-tracking tree walker of visitors.py.
 *
 * A `ScopedNodeVisitor` dispatches each node on its kind: `visit` uses the
 * subclass's `visit_<Kind>` handler when there is one and `generic_visit`
 * otherwise, and `unvisit` does the same with `unvisit_<Kind>` and
 * `generic_unvisit`; each resolution is cached per kind in its own lazily
 * created cache.  `generic_visit` visits the children in order, passing
 * each the identity of the parent, and then unvisits the node.
 *
 * What a walk does is the sequence of handler calls it makes, written as
 * a list of events; `VisitTrace` gives that list as a function of the tree,
 * and the lemmas relate it to pre-order and post-order.
 */
module Visitors {
  import opened Wrappers

  /** A tree node: the kind of node it is, its children in `children()` order with their roles, and its identity (`_id_for`). */
  datatype Node = Node(kind: string, children: seq<Child>, identity: int)

  datatype Child = Child(role: string, node: Node)

  /** Which handler a dispatch selected: the generic one, or one the subclass defines for the kind. */
  datatype Handler = Generic | Custom

  /** The kinds for which a visitor defines `visit_<Kind>` and `unvisit_<Kind>`. */
  datatype Handlers = Handlers(visitKinds: set<string>, unvisitKinds: set<string>)

  /** A call of the handler `visit` selected, or of the handler `unvisit` selected, with its arguments. */
  datatype Event =
    | Visited(node: Node, visitId: int, handler: Handler)
    | Unvisited(node: Node, visitId: int, handler: Handler)

  /** What `getattr(self, 'visit_' + kind, self.generic_visit)` resolves to. */
  function VisitHandler(h: Handlers, kind: string): Handler
  {
    if kind in h.visitKinds then Custom else Generic
  }

  /** What `getattr(self, 'unvisit_' + kind, self.generic_unvisit)` resolves to. */
  function UnvisitHandler(h: Handlers, kind: string): Handler
  {
    if kind in h.unvisitKinds then Custom else Generic
  }

  /**
   * The handler calls of `visit(node, visitId)`.  A handler the subclass
   * defines is outside this model: only its call is recorded.
   */
  function VisitTrace(h: Handlers, node: Node, visitId: int): seq<Event>
    decreases node, |node.children| + 2
  {
    var handler := VisitHandler(h, node.kind);
    [Visited(node, visitId, handler)] + (if handler == Generic then GenericVisitTrace(h, node, visitId) else [])
  }

  /** The handler calls of `generic_visit(node, thisId)`: the children, then `unvisit(node, thisId)`. */
  function GenericVisitTrace(h: Handlers, node: Node, thisId: int): seq<Event>
    decreases node, |node.children| + 1
  {
    ChildrenTrace(h, node, |node.children|) + [Unvisited(node, thisId, UnvisitHandler(h, node.kind))]
  }

  /** The handler calls of visiting the first `k` children of `node`, each with the identity of `node`. */
  function ChildrenTrace(h: Handlers, node: Node, k: nat): seq<Event>
    requires k <= |node.children|
    decreases node, k
  {
    if k == 0 then []
    else ChildrenTrace(h, node, k - 1) + VisitTrace(h, node.children[k - 1].node, node.identity)
  }

  /** The nodes of the tree, each before its descendants, children in order. */
  function PreOrder(node: Node): seq<Node>
    decreases node, |node.children| + 1
  {
    [node] + PreOrderOfChildren(node, |node.children|)
  }

  function PreOrderOfChildren(node: Node, k: nat): seq<Node>
    requires k <= |node.children|
    decreases node, k
  {
    if k == 0 then [] else PreOrderOfChildren(node, k - 1) + PreOrder(node.children[k - 1].node)
  }

  /** The nodes of the tree, each after its descendants, children in order. */
  function PostOrder(node: Node): seq<Node>
    decreases node, |node.children| + 1
  {
    PostOrderOfChildren(node, |node.children|) + [node]
  }

  function PostOrderOfChildren(node: Node, k: nat): seq<Node>
    requires k <= |node.children|
    decreases node, k
  {
    if k == 0 then [] else PostOrderOfChildren(node, k - 1) + PostOrder(node.children[k - 1].node)
  }

  /** The nodes of the `visit` calls of a trace, in call order. */
  function VisitedNodes(events: seq<Event>): seq<Node>
  {
    if events == [] then []
    else (if events[0].Visited? then [events[0].node] else []) + VisitedNodes(events[1..])
  }

  /** The nodes of the `unvisit` calls of a trace, in call order. */
  function UnvisitedNodes(events: seq<Event>): seq<Node>
  {
    if events == [] then []
    else (if events[0].Unvisited? then [events[0].node] else []) + UnvisitedNodes(events[1..])
  }

  /** The kinds of the nodes a trace visits. */
  function VisitedKinds(events: seq<Event>): set<string>
  {
    if events == [] then {}
    else (if events[0].Visited? then {events[0].node.kind} else {}) + VisitedKinds(events[1..])
  }

  /** The kinds of the nodes a trace unvisits. */
  function UnvisitedKinds(events: seq<Event>): set<string>
  {
    if events == [] then {}
    else (if events[0].Unvisited? then {events[0].node.kind} else {}) + UnvisitedKinds(events[1..])
  }

  lemma {:induction false} KindsAppend(a: seq<Event>, b: seq<Event>)
    ensures VisitedKinds(a + b) == VisitedKinds(a) + VisitedKinds(b)
    ensures UnvisitedKinds(a + b) == UnvisitedKinds(a) + UnvisitedKinds(b)
  {
    if a == [] {
      assert a + b == b;
    } else {
      assert (a + b)[1..] == a[1..] + b;
      KindsAppend(a[1..], b);
    }
  }

  lemma {:induction false} VisitedNodesAppend(a: seq<Event>, b: seq<Event>)
    ensures VisitedNodes(a + b) == VisitedNodes(a) + VisitedNodes(b)
  {
    if a == [] {
      assert a + b == b;
    } else {
      assert (a + b)[0] == a[0];
      assert (a + b)[1..] == a[1..] + b;
      VisitedNodesAppend(a[1..], b);
    }
  }

  lemma {:induction false} UnvisitedNodesAppend(a: seq<Event>, b: seq<Event>)
    ensures UnvisitedNodes(a + b) == UnvisitedNodes(a) + UnvisitedNodes(b)
  {
    if a == [] {
      assert a + b == b;
    } else {
      assert (a + b)[0] == a[0];
      assert (a + b)[1..] == a[1..] + b;
      UnvisitedNodesAppend(a[1..], b);
    }
  }

  /**
   * With no `visit_<Kind>` handler, the walk visits every node of the tree
   * exactly once, in pre-order.
   */
  lemma {:induction false} GenericVisitsInPreOrder(h: Handlers, node: Node, visitId: int)
    requires h.visitKinds == {}
    ensures VisitedNodes(VisitTrace(h, node, visitId)) == PreOrder(node)
    decreases node, |node.children| + 1
  {
    ChildrenVisitsInPreOrder(h, node, |node.children|);
    var rest := GenericVisitTrace(h, node, visitId);
    VisitedNodesAppend(ChildrenTrace(h, node, |node.children|), [Unvisited(node, visitId, UnvisitHandler(h, node.kind))]);
    VisitedNodesAppend([Visited(node, visitId, Generic)], rest);
  }

  lemma {:induction false} ChildrenVisitsInPreOrder(h: Handlers, node: Node, k: nat)
    requires h.visitKinds == {}
    requires k <= |node.children|
    ensures VisitedNodes(ChildrenTrace(h, node, k)) == PreOrderOfChildren(node, k)
    decreases node, k
  {
    if k > 0 {
      ChildrenVisitsInPreOrder(h, node, k - 1);
      GenericVisitsInPreOrder(h, node.children[k - 1].node, node.identity);
      VisitedNodesAppend(ChildrenTrace(h, node, k - 1), VisitTrace(h, node.children[k - 1].node, node.identity));
    }
  }

  /**
   * With no `visit_<Kind>` handler, the walk unvisits every node of the tree
   * exactly once, in post-order: a node after all of its descendants.
   */
  lemma {:induction false} GenericUnvisitsInPostOrder(h: Handlers, node: Node, visitId: int)
    requires h.visitKinds == {}
    ensures UnvisitedNodes(VisitTrace(h, node, visitId)) == PostOrder(node)
    decreases node, |node.children| + 1
  {
    ChildrenUnvisitsInPostOrder(h, node, |node.children|);
    var rest := GenericVisitTrace(h, node, visitId);
    UnvisitedNodesAppend(ChildrenTrace(h, node, |node.children|), [Unvisited(node, visitId, UnvisitHandler(h, node.kind))]);
    UnvisitedNodesAppend([Visited(node, visitId, Generic)], rest);
  }

  lemma {:induction false} ChildrenUnvisitsInPostOrder(h: Handlers, node: Node, k: nat)
    requires h.visitKinds == {}
    requires k <= |node.children|
    ensures UnvisitedNodes(ChildrenTrace(h, node, k)) == PostOrderOfChildren(node, k)
    decreases node, k
  {
    if k > 0 {
      ChildrenUnvisitsInPostOrder(h, node, k - 1);
      GenericUnvisitsInPostOrder(h, node.children[k - 1].node, node.identity);
      UnvisitedNodesAppend(ChildrenTrace(h, node, k - 1), VisitTrace(h, node.children[k - 1].node, node.identity));
    }
  }

  /**
   * When `node` is walked generically, each of its children is visited
   * with the identity of `node`, not its own identity and not the id
   * `node` itself was visited with.
   */
  lemma ChildVisitedWithParentIdentity(h: Handlers, node: Node, visitId: int, i: nat)
    requires node.kind !in h.visitKinds
    requires i < |node.children|
    ensures var c := node.children[i].node;
            Visited(c, node.identity, VisitHandler(h, c.kind)) in VisitTrace(h, node, visitId)
  {
    var c := node.children[i].node;
    var start := 1 + |ChildrenTrace(h, node, i)|;
    ChildTraceInPlace(h, node, visitId, i);
    assert VisitTrace(h, node, visitId)[start] == VisitTrace(h, c, node.identity)[0];
  }

  /** The trace of the first `j` children is a prefix of the trace of the first `k`. */
  lemma {:induction false} ChildrenTracePrefix(h: Handlers, node: Node, j: nat, k: nat)
    requires j <= k <= |node.children|
    ensures ChildrenTrace(h, node, j) <= ChildrenTrace(h, node, k)
    decreases k
  {
    if j < k {
      ChildrenTracePrefix(h, node, j, k - 1);
    }
  }

  /**
   * Where child `i` sits in a generic visit of `node`: the trace opens with
   * the visit of `node` and the traces of the children before `i`, and
   * right after them comes the whole visit of child `i`, made with the
   * identity of `node`.
   */
  lemma ChildTraceInPlace(h: Handlers, node: Node, visitId: int, i: nat)
    requires node.kind !in h.visitKinds
    requires i < |node.children|
    ensures var c := node.children[i].node;
            [Visited(node, visitId, Generic)] + ChildrenTrace(h, node, i) + VisitTrace(h, c, node.identity)
              <= VisitTrace(h, node, visitId)
  {
    var c := node.children[i].node;
    var before := ChildrenTrace(h, node, i);
    var block := VisitTrace(h, c, node.identity);
    var rest := GenericVisitTrace(h, node, visitId);
    ChildrenTracePrefix(h, node, i + 1, |node.children|);
    assert before + block <= rest;
    GenericVisitUnfolds(h, node, visitId);
    PrefixExtends([Visited(node, visitId, Generic)], before + block, rest);
  }

  /** With no handler of its own, a node's visit is the visit event followed by `generic_visit`. */
  lemma GenericVisitUnfolds(h: Handlers, node: Node, visitId: int)
    requires node.kind !in h.visitKinds
    ensures VisitTrace(h, node, visitId) == [Visited(node, visitId, Generic)] + GenericVisitTrace(h, node, visitId)
  {
  }

  /** Putting the same sequence in front keeps a prefix a prefix. */
  lemma PrefixExtends<E>(front: seq<E>, p: seq<E>, s: seq<E>)
    requires p <= s
    ensures front + p <= front + s
  {
    assert (front + s)[..|front + p|] == front + p;
  }

  /**
   * A generic visit opens with the visit of `node` and closes with the one
   * unvisit of `node`, with the id `node` was visited with.
   */
  lemma GenericVisitIsBracketed(h: Handlers, node: Node, visitId: int)
    requires node.kind !in h.visitKinds
    ensures var t := VisitTrace(h, node, visitId);
            && t[0] == Visited(node, visitId, Generic)
            && t[|t| - 1] == Unvisited(node, visitId, UnvisitHandler(h, node.kind))
  {
  }

  /**
   * A block (identity 7) holding one declaration (identity 9), visited with
   * id 3: the declaration is visited and unvisited with 7, the identity of
   * the block, rather than its own identity or the id of the visit.
   */
  lemma ChildGetsParentIdentityExample()
    ensures var decl := Node("Decl", [], 9);
            var block := Node("Compound", [Child("block_items", decl)], 7);
            VisitTrace(Handlers({}, {}), block, 3)
              == [Visited(block, 3, Generic), Visited(decl, 7, Generic), Unvisited(decl, 7, Generic), Unvisited(block, 3, Generic)]
  {
    var h := Handlers({}, {});
    var decl := Node("Decl", [], 9);
    var block := Node("Compound", [Child("block_items", decl)], 7);
    assert ChildrenTrace(h, decl, 0) == [];
    assert VisitTrace(h, decl, 7) == [Visited(decl, 7, Generic), Unvisited(decl, 7, Generic)];
    assert ChildrenTrace(h, block, 1) == ChildrenTrace(h, block, 0) + VisitTrace(h, decl, 7);
  }

  /** The entries of a cache that may not have been created yet. */
  function Entries(cache: Option<map<string, Handler>>): map<string, Handler>
  {
    if cache.Some? then cache.value else map[]
  }

  /** `ScopedNodeVisitor`, with the handlers its subclass defines fixed as `handlers`. */
  class ScopedNodeVisitor {
    const handlers: Handlers
    var methodCache: Option<map<string, Handler>>
    var unvisitMethodCache: Option<map<string, Handler>>

    /** Every cached handler is what resolving its kind gives. */
    ghost predicate Valid()
      reads this
    {
      && (forall k :: k in Entries(methodCache) ==> Entries(methodCache)[k] == VisitHandler(handlers, k))
      && (forall k :: k in Entries(unvisitMethodCache) ==> Entries(unvisitMethodCache)[k] == UnvisitHandler(handlers, k))
    }

    /** The kinds the visit cache holds a handler for; none before it is created. */
    function VisitCached(): set<string>
      reads this
    {
      Entries(methodCache).Keys
    }

    /** The kinds the unvisit cache holds a handler for; none before it is created. */
    function UnvisitCached(): set<string>
      reads this
    {
      Entries(unvisitMethodCache).Keys
    }

    /** A visitor starts with neither cache created. */
    constructor (handlers: Handlers)
      ensures Valid()
      ensures this.handlers == handlers
      ensures methodCache == None && unvisitMethodCache == None
    {
      this.handlers := handlers;
      methodCache := None;
      unvisitMethodCache := None;
    }

    /** `start_visit(node)`: visits `node` with its own identity. */
    method StartVisit(node: Node) returns (events: seq<Event>)
      requires Valid()
      modifies this
      ensures Valid()
      ensures events == VisitTrace(handlers, node, node.identity)
      ensures methodCache.Some?
      ensures VisitCached() == old(VisitCached()) + VisitedKinds(events)
      ensures UnvisitCached() == old(UnvisitCached()) + UnvisitedKinds(events)
    {
      events := Visit(node, node.identity);
    }

    /**
     * `visit(node, visitId)`: creates the visit cache if needed, takes the
     * handler for the kind from it, or resolves and caches it, and calls it.
     * Cache entries are only ever added.
     */
    method Visit(node: Node, visitId: int) returns (events: seq<Event>)
      requires Valid()
      modifies this
      ensures Valid()
      ensures events == VisitTrace(handlers, node, visitId)
      ensures node.kind in old(Entries(methodCache)) ==> events[0].handler == old(Entries(methodCache))[node.kind]
      ensures methodCache.Some?
      ensures VisitCached() == old(VisitCached()) + VisitedKinds(events)
      ensures UnvisitCached() == old(UnvisitCached()) + UnvisitedKinds(events)
      ensures unvisitMethodCache.Some? <==> old(unvisitMethodCache).Some? || UnvisitedKinds(events) != {}
      ensures forall k :: k in old(Entries(methodCache)) ==> Entries(methodCache)[k] == old(Entries(methodCache))[k]
      decreases node, |node.children| + 2
    {
      if methodCache.None? {
        methodCache := Some(map[]);
      }
      var visitor: Handler;
      if node.kind in methodCache.value {
        visitor := methodCache.value[node.kind];
      } else {
        visitor := VisitHandler(handlers, node.kind);
        methodCache := Some(methodCache.value[node.kind := visitor]);
      }
      events := [Visited(node, visitId, visitor)];
      if visitor == Generic {
        var rest := GenericVisit(node, visitId);
        KindsAppend(events, rest);
        events := events + rest;
      }
    }

    /**
     * `unvisit(node, visitId)`: the same dispatch over the separate unvisit
     * cache; `generic_unvisit` does nothing.
     */
    method Unvisit(node: Node, visitId: int) returns (events: seq<Event>)
      requires Valid()
      modifies this
      ensures Valid()
      ensures events == [Unvisited(node, visitId, UnvisitHandler(handlers, node.kind))]
      ensures methodCache == old(methodCache)
      ensures unvisitMethodCache.Some?
      ensures UnvisitCached() == old(UnvisitCached()) + {node.kind}
    {
      if unvisitMethodCache.None? {
        unvisitMethodCache := Some(map[]);
      }
      var unvisitor: Handler;
      if node.kind in unvisitMethodCache.value {
        unvisitor := unvisitMethodCache.value[node.kind];
      } else {
        unvisitor := UnvisitHandler(handlers, node.kind);
        unvisitMethodCache := Some(unvisitMethodCache.value[node.kind := unvisitor]);
      }
      events := [Unvisited(node, visitId, unvisitor)];
    }

    /**
     * `generic_visit(node, thisId)`: visits each child in order with the
     * identity of `node`, then unvisits `node` with `thisId`.
     */
    method GenericVisit(node: Node, thisId: int) returns (events: seq<Event>)
      requires Valid()
      modifies this
      ensures Valid()
      ensures events == GenericVisitTrace(handlers, node, thisId)
      ensures methodCache.Some? <==> old(methodCache).Some? || |node.children| > 0
      ensures VisitCached() == old(VisitCached()) + VisitedKinds(events)
      ensures unvisitMethodCache.Some? && node.kind in UnvisitedKinds(events)
      ensures UnvisitCached() == old(UnvisitCached()) + UnvisitedKinds(events)
      decreases node, |node.children| + 1
    {
      events := VisitChildren(node);
      var closing := Unvisit(node, thisId);
      KindsAppend(events, closing);
      events := events + closing;
    }

    /** The loop of `generic_visit`: visits every child of `node`, in order, with the identity of `node`. */
    method VisitChildren(node: Node) returns (events: seq<Event>)
      requires Valid()
      modifies this
      ensures Valid()
      ensures events == ChildrenTrace(handlers, node, |node.children|)
      ensures methodCache.Some? <==> old(methodCache).Some? || |node.children| > 0
      ensures VisitCached() == old(VisitCached()) + VisitedKinds(events)
      ensures UnvisitCached() == old(UnvisitCached()) + UnvisitedKinds(events)
      decreases node, |node.children|
    {
      ghost var visitKeys := VisitCached();
      ghost var unvisitKeys := UnvisitCached();
      events := [];
      for i := 0 to |node.children|
        invariant Valid()
        invariant events == ChildrenTrace(handlers, node, i)
        invariant methodCache.Some? <==> old(methodCache).Some? || i > 0
        invariant VisitCached() == visitKeys + VisitedKinds(events)
        invariant UnvisitCached() == unvisitKeys + UnvisitedKinds(events)
      {
        var id := node.identity;
        var childEvents := Visit(node.children[i].node, id);
        KindsAppend(events, childEvents);
        assert ChildrenTrace(handlers, node, i + 1) == events + childEvents;
        events := events + childEvents;
      }
    }
  }
}
