/**
  The slice of the entity-component world that the interaction subsystem
  touches: entities as bags of optional components, the parent/child
  hierarchy (the `Children` component) with its descendant walk, asset
  handles, and the deferred command buffer that a system fills and the
  scheduler applies afterwards.
 */
module Ecs {

  datatype Option<+T> = None | Some(value: T)

  /** An entity id. */
  type Entity = nat

  /**
    A handle into an asset store: either the default placeholder handle a
    component is created with, or the slot that `Assets::add` returned.
   */
  datatype Handle = Placeholder | Slot(index: nat)

  /** Whether `h` names an entry of `store` (what a successful `Assets::get` means). */
  predicate Resolves<T>(h: Handle, store: seq<T>) {
    h.Slot? && h.index < |store|
  }

  /** A PBR material; its parameters are opaque to the interaction subsystem. */
  datatype StandardMaterial = StandardMaterial(parameters: seq<int>)

  const DefaultStandardMaterial := StandardMaterial([])

  /** The (empty) shader extension of the interaction material. */
  datatype InteractMaterialExt = InteractMaterialExt

  /** `ExtendedMaterial<StandardMaterial, InteractMaterialExt>`. */
  datatype InteractMaterial = InteractMaterial(base: StandardMaterial, extension: InteractMaterialExt)

  /**
    The components of one entity that matter here, each optional:
    `standard` is `MeshMaterial3d<StandardMaterial>`, `interact` is
    `MeshMaterial3d<InteractMaterial>`, `scene` is `InteractiveScene.sink`,
    `sink` is `InteractionSink.material`, and `children` is the `Children`
    list (empty when the entity has no children).
   */
  datatype Node = Node(
    standard: Option<Handle>,
    interact: Option<Handle>,
    scene: Option<Entity>,
    sink: Option<Handle>,
    children: seq<Entity>)

  type Entities = map<Entity, Node>

  /* === Hierarchy === */

  /** Every live child sits strictly below its parent in `rank`. */
  ghost predicate Ranked(es: Entities, rank: map<Entity, nat>) {
    && es.Keys <= rank.Keys
    && forall e, c | e in es && c in es[e].children && c in es :: rank[c] < rank[e]
  }

  /** The hierarchy has no cycle: some ranking of the live entities exists. */
  ghost predicate Acyclic(es: Entities) {
    exists rank :: Ranked(es, rank)
  }

  ghost function RankOf(es: Entities): (rank: map<Entity, nat>)
    requires Acyclic(es)
    ensures Ranked(es, rank)
  {
    var rank :| Ranked(es, rank); rank
  }

  /** Every live entity of `cs` ranks below `bound`. */
  ghost predicate Below(es: Entities, rank: map<Entity, nat>, cs: seq<Entity>, bound: nat)
    requires es.Keys <= rank.Keys
  {
    forall c | c in cs && c in es :: rank[c] < bound
  }

  /**
    The entities of the subtrees rooted at `cs`, in depth-first pre-order,
    each root followed by its own descendants. An entity that is listed as a
    child but is not live is yielded but has no children.
   */
  ghost function Unfold(es: Entities, rank: map<Entity, nat>, cs: seq<Entity>, bound: nat): seq<Entity>
    requires Ranked(es, rank) && Below(es, rank, cs, bound)
    decreases bound, |cs|
  {
    if cs == [] then []
    else
      var c := cs[0];
      [c] + (if c in es then Unfold(es, rank, es[c].children, rank[c]) else []) + Unfold(es, rank, cs[1..], bound)
  }

  /** The descendants of `root`, the root itself excluded, with the multiplicity a walk visits them. */
  ghost function Descendants(es: Entities, root: Entity): (ds: seq<Entity>)
    requires Acyclic(es)
    ensures root !in ds
    ensures root !in es ==> ds == []
  {
    if root !in es then []
    else
      var rank := RankOf(es);
      UnfoldBelow(es, rank, es[root].children, rank[root]);
      Unfold(es, rank, es[root].children, rank[root])
  }

  /** The entities a sequence lists. */
  function Elements(s: seq<Entity>): set<Entity> {
    set x | x in s
  }

  /** Two worlds with the same live entities and the same `Children` lists. */
  ghost predicate SameHierarchy(es: Entities, es': Entities) {
    && es.Keys == es'.Keys
    && forall e | e in es :: es'[e].children == es[e].children
  }

  lemma {:induction false} UnfoldConcat(es: Entities, rank: map<Entity, nat>, a: seq<Entity>, b: seq<Entity>, bound: nat)
    requires Ranked(es, rank) && Below(es, rank, a, bound) && Below(es, rank, b, bound)
    ensures Below(es, rank, a + b, bound)
    ensures Unfold(es, rank, a + b, bound) == Unfold(es, rank, a, bound) + Unfold(es, rank, b, bound)
    decreases |a|
  {
    if a == [] {
      assert a + b == b;
    } else {
      assert (a + b)[0] == a[0];
      assert (a + b)[1..] == a[1..] + b;
      UnfoldConcat(es, rank, a[1..], b, bound);
    }
  }

  /** The walk depends only on the hierarchy: not on the ranking, the bound, or any other component. */
  lemma {:induction false} UnfoldFrame(es: Entities, rank: map<Entity, nat>, es': Entities, rank': map<Entity, nat>,
                                      cs: seq<Entity>, bound: nat, bound': nat)
    requires Ranked(es, rank) && Below(es, rank, cs, bound)
    requires Ranked(es', rank') && Below(es', rank', cs, bound')
    requires SameHierarchy(es, es')
    ensures Unfold(es, rank, cs, bound) == Unfold(es', rank', cs, bound')
    decreases bound, |cs|
  {
    if cs != [] {
      var c := cs[0];
      if c in es {
        UnfoldFrame(es, rank, es', rank', es[c].children, rank[c], rank'[c]);
      }
      UnfoldFrame(es, rank, es', rank', cs[1..], bound, bound');
    }
  }

  /** Everything the walk yields ranks below the bound of its starting list. */
  lemma {:induction false} UnfoldBelow(es: Entities, rank: map<Entity, nat>, cs: seq<Entity>, bound: nat)
    requires Ranked(es, rank) && Below(es, rank, cs, bound)
    ensures Below(es, rank, Unfold(es, rank, cs, bound), bound)
    decreases bound, |cs|
  {
    if cs != [] {
      var c := cs[0];
      if c in es {
        UnfoldBelow(es, rank, es[c].children, rank[c]);
      }
      UnfoldBelow(es, rank, cs[1..], bound);
    }
  }

  /**
    One step of a breadth-first walk: taking the front entity off the queue
    and appending its children leaves exactly the rest of the unfolding.
   */
  lemma UnfoldStep(es: Entities, rank: map<Entity, nat>, queue: seq<Entity>, bound: nat)
    requires Ranked(es, rank) && Below(es, rank, queue, bound) && queue != []
    ensures var next := queue[1..] + (if queue[0] in es then es[queue[0]].children else []);
            && Below(es, rank, next, bound)
            && multiset(Unfold(es, rank, queue, bound)) == multiset{queue[0]} + multiset(Unfold(es, rank, next, bound))
  {
    var c, rest := queue[0], queue[1..];
    var grandchildren := if c in es then es[c].children else [];
    assert Below(es, rank, grandchildren, bound);
    UnfoldConcat(es, rank, rest, grandchildren, bound);
    if c in es {
      UnfoldFrame(es, rank, es, rank, grandchildren, bound, rank[c]);
    }
  }

  /** The walk yields its starting list and is closed under taking children. */
  lemma {:induction false} UnfoldClosed(es: Entities, rank: map<Entity, nat>, cs: seq<Entity>, bound: nat)
    requires Ranked(es, rank) && Below(es, rank, cs, bound)
    ensures forall c | c in cs :: c in Unfold(es, rank, cs, bound)
    ensures forall d, c | d in Unfold(es, rank, cs, bound) && d in es && c in es[d].children ::
              c in Unfold(es, rank, cs, bound)
    decreases bound, |cs|
  {
    if cs != [] {
      var c := cs[0];
      UnfoldClosed(es, rank, cs[1..], bound);
      if c in es {
        UnfoldClosed(es, rank, es[c].children, rank[c]);
      }
    }
  }

  /** `s` contains the children of every live entity it contains. */
  ghost predicate ChildClosed(es: Entities, s: set<Entity>) {
    forall d, c | d in s && d in es && c in es[d].children :: c in s
  }

  /** The walk yields nothing outside a child-closed set that holds its starting list. */
  lemma {:induction false} UnfoldLeast(es: Entities, rank: map<Entity, nat>, cs: seq<Entity>, bound: nat, s: set<Entity>)
    requires Ranked(es, rank) && Below(es, rank, cs, bound)
    requires Elements(cs) <= s && ChildClosed(es, s)
    ensures Elements(Unfold(es, rank, cs, bound)) <= s
    decreases bound, |cs|
  {
    if cs != [] {
      var c := cs[0];
      assert c in Elements(cs);
      if c in es {
        UnfoldLeast(es, rank, es[c].children, rank[c], s);
      }
      assert Elements(cs[1..]) <= Elements(cs);
      UnfoldLeast(es, rank, cs[1..], bound, s);
    }
  }

  /**
    The descendants of `root` form the least child-closed set that holds the
    root's children: it contains them, it is child-closed, and it lies inside
    every other such set.
   */
  lemma DescendantsLeastClosed(es: Entities, root: Entity, s: set<Entity>)
    requires Acyclic(es)
    ensures root in es ==> forall c | c in es[root].children :: c in Descendants(es, root)
    ensures ChildClosed(es, Elements(Descendants(es, root)))
    ensures root in es && Elements(es[root].children) <= s && ChildClosed(es, s) ==> Elements(Descendants(es, root)) <= s
  {
    if root in es {
      var rank := RankOf(es);
      UnfoldClosed(es, rank, es[root].children, rank[root]);
      if Elements(es[root].children) <= s && ChildClosed(es, s) {
        UnfoldLeast(es, rank, es[root].children, rank[root], s);
      }
    }
  }

  /** A change that keeps every `Children` list keeps the hierarchy acyclic: the old ranking still fits. */
  lemma SameHierarchyKeepsAcyclic(es: Entities, es': Entities)
    requires Acyclic(es) && SameHierarchy(es, es')
    ensures Acyclic(es')
  {
    var rank := RankOf(es);
    assert Ranked(es', rank);
  }

  /** A change that keeps the hierarchy keeps it acyclic and keeps every descendant walk. */
  lemma DescendantsKept(es: Entities, es': Entities, root: Entity)
    requires Acyclic(es) && SameHierarchy(es, es')
    ensures Acyclic(es')
    ensures Descendants(es', root) == Descendants(es, root)
  {
    var rank := RankOf(es);
    SameHierarchyKeepsAcyclic(es, es');
    if root in es {
      var rank' := RankOf(es');
      UnfoldFrame(es, rank, es', rank', es[root].children, rank[root], rank'[root]);
    }
  }

  /* === Deferred commands === */

  /**
    One queued entity command: `remove::<MeshMaterial3d<StandardMaterial>>()`
    or `insert(MeshMaterial3d(material))` for an InteractMaterial handle.
   */
  datatype Command =
    | RemoveStandard(target: Entity)
    | InsertInteract(target: Entity, material: Handle)

  /** Only the two material components differ; hierarchy, scene links and sinks are as before. */
  ghost predicate MaterialsOnly(es: Entities, es': Entities) {
    && SameHierarchy(es, es')
    && forall e | e in es :: es'[e].scene == es[e].scene && es'[e].sink == es[e].sink
  }

  /** Executing one command; a command for an entity that is not live does nothing. */
  function Run(es: Entities, c: Command): Entities {
    if c.target !in es then es
    else
      match c
      case RemoveStandard(t) => es[t := es[t].(standard := None)]
      case InsertInteract(t, h) => es[t := es[t].(interact := Some(h))]
  }

  function Targets(cmds: seq<Command>): set<Entity> {
    set i | 0 <= i < |cmds| :: cmds[i].target
  }

  /** Executing a command buffer in order. */
  function Apply(es: Entities, cmds: seq<Command>): Entities
    decreases |cmds|
  {
    if cmds == [] then es
    else Run(Apply(es, cmds[..|cmds| - 1]), cmds[|cmds| - 1])
  }

  /**
    A buffer of material commands changes only the material components, and
    only on the entities it targets.
   */
  lemma {:induction false} ApplyOnlyMaterials(es: Entities, cmds: seq<Command>)
    ensures MaterialsOnly(es, Apply(es, cmds))
    ensures forall e | e in es && e !in Targets(cmds) :: Apply(es, cmds)[e] == es[e]
    decreases |cmds|
  {
    if cmds != [] {
      var front := cmds[..|cmds| - 1];
      ApplyOnlyMaterials(es, front);
      assert Targets(front) <= Targets(cmds) by {
        forall t | t in Targets(front) ensures t in Targets(cmds) {
          var i :| 0 <= i < |front| && front[i].target == t;
          assert cmds[i] == front[i];
        }
      }
      assert cmds[|cmds| - 1].target in Targets(cmds);
    }
  }
}
