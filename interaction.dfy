/**
  The interaction subsystem as functions over the world: how a scene root
  resolves to the material handle of its sink, what the upgrade does to the
  entities when that resolution succeeds, and the invariants of sink
  handles that the construction hook keeps.
 */
module Interaction {
  import opened Ecs

  /** The `SharedHandles` resource: the handle of the palette StandardMaterial. */
  datatype SharedHandles = SharedHandles(paletteMaterial: Handle)

  /** The palette material, when the resource exists and its handle resolves. */
  function Palette(shared: Option<SharedHandles>, standard: seq<StandardMaterial>): Option<StandardMaterial> {
    if shared.Some? && Resolves(shared.value.paletteMaterial, standard)
    then Some(standard[shared.value.paletteMaterial.index])
    else None
  }

  /**
    The root's `InteractiveScene` link followed to that entity's
    `InteractionSink`, giving its material handle; `None` when the root has
    no link, or the linked entity is gone or has no sink.
   */
  function LinkedSink(es: Entities, root: Entity): Option<Handle> {
    if root !in es || es[root].scene.None? then None
    else
      var sink := es[root].scene.value;
      if sink !in es || es[sink].sink.None? then None
      else es[sink].sink
  }

  /** A node whose StandardMaterial reference is replaced by an InteractMaterial reference. */
  function Swapped(n: Node, h: Handle): Node {
    n.(standard := None, interact := Some(h))
  }

  /** Swap the material of every target that has a StandardMaterial; nothing else. */
  function Rewrite(es: Entities, targets: set<Entity>, h: Handle): Entities {
    map e | e in es :: if e in targets && es[e].standard.Some? then Swapped(es[e], h) else es[e]
  }

  ghost function DescendantSet(es: Entities, root: Entity): set<Entity>
    requires Acyclic(es)
  {
    Elements(Descendants(es, root))
  }

  /** The live descendants of `root` that carry a StandardMaterial reference. */
  ghost function StandardDescendants(es: Entities, root: Entity): set<Entity>
    requires Acyclic(es)
  {
    set d | d in Descendants(es, root) && d in es && es[d].standard.Some?
  }

  /** The entities whose components differ between two worlds. */
  function Changed(es: Entities, es': Entities): set<Entity> {
    set e | e in es && (e !in es' || es'[e] != es[e])
  }

  /**
    The effect of the scene-ready observer on the world: with a resolved
    sink, every descendant of the root that has a StandardMaterial gets the
    sink's handle instead; otherwise nothing.
   */
  ghost function Upgrade(es: Entities, root: Entity): (es': Entities)
    requires Acyclic(es)
    ensures MaterialsOnly(es, es') && Acyclic(es')
  {
    var r := match LinkedSink(es, root)
      case None => es
      case Some(h) => Rewrite(es, DescendantSet(es, root), h);
    DescendantsKept(es, r, root);
    r
  }

  lemma UpgradeIsRewrite(es: Entities, root: Entity, h: Handle)
    requires Acyclic(es) && LinkedSink(es, root) == Some(h)
    ensures Upgrade(es, root) == Rewrite(es, Elements(Descendants(es, root)), h)
  {
  }

  /** The upgrade keeps the walk and the resolution, so a later upgrade sees the same subtree and sink. */
  lemma UpgradeKeepsSubtreeAndSink(es: Entities, root: Entity, other: Entity)
    requires Acyclic(es)
    ensures Descendants(Upgrade(es, root), other) == Descendants(es, other)
    ensures LinkedSink(Upgrade(es, root), other) == LinkedSink(es, other)
  {
    DescendantsKept(es, Upgrade(es, root), other);
  }

  /** No `InteractiveScene`, or a link to an entity without a sink: the upgrade returns early. */
  lemma UnlinkedUpgradeIsNoOp(es: Entities, root: Entity)
    requires Acyclic(es)
    requires root !in es || es[root].scene.None?
             || es[root].scene.value !in es || es[es[root].scene.value].sink.None?
    ensures Upgrade(es, root) == es
  {
  }

  /**
    After an upgrade with sink handle `h`: no descendant keeps a
    StandardMaterial, and every descendant that had one references `h`.
   */
  lemma UpgradeReplacesStandard(es: Entities, root: Entity, h: Handle)
    requires Acyclic(es) && LinkedSink(es, root) == Some(h)
    ensures forall d | d in Descendants(es, root) && d in es :: Upgrade(es, root)[d].standard.None?
    ensures forall d | d in StandardDescendants(es, root) :: Upgrade(es, root)[d].interact == Some(h)
    ensures StandardDescendants(Upgrade(es, root), root) == {}
  {
    UpgradeKeepsSubtreeAndSink(es, root, root);
  }

  /**
    The upgrade changes no entity but the descendants that had a
    StandardMaterial: not the root, not other descendants, not entities
    outside the subtree, and on the changed ones only the two material
    components.
   */
  lemma UpgradeTouchesNothingElse(es: Entities, root: Entity)
    requires Acyclic(es)
    ensures MaterialsOnly(es, Upgrade(es, root))
    ensures root in es ==> Upgrade(es, root)[root] == es[root]
    ensures forall e | e in es && e !in StandardDescendants(es, root) :: Upgrade(es, root)[e] == es[e]
    ensures forall e | e in StandardDescendants(es, root) ::
              Upgrade(es, root)[e].children == es[e].children && Upgrade(es, root)[e].scene == es[e].scene
  {
  }

  /** With a resolved sink, the changed entities are exactly the StandardMaterial descendants. */
  lemma UpgradeChangesExactlyStandardDescendants(es: Entities, root: Entity)
    requires Acyclic(es) && LinkedSink(es, root).Some?
    ensures Changed(es, Upgrade(es, root)) == StandardDescendants(es, root)
    ensures |Changed(es, Upgrade(es, root))| == |StandardDescendants(es, root)|
  {
    var es' := Upgrade(es, root);
    forall e | e in StandardDescendants(es, root) ensures e in Changed(es, es') {
      assert es'[e].standard.None? && es[e].standard.Some?;
    }
  }

  /** Running the upgrade a second time on the same root changes nothing. */
  lemma UpgradeIdempotent(es: Entities, root: Entity)
    requires Acyclic(es)
    ensures Upgrade(Upgrade(es, root), root) == Upgrade(es, root)
  {
    var es' := Upgrade(es, root);
    UpgradeKeepsSubtreeAndSink(es, root, root);
    match LinkedSink(es, root)
    case None =>
    case Some(h) =>
      assert Rewrite(es', DescendantSet(es', root), h) == es';
  }

  /** Pointwise: a live entity is swapped exactly when it is a StandardMaterial descendant. */
  lemma UpgradeAt(es: Entities, root: Entity, h: Handle, e: Entity)
    requires Acyclic(es) && LinkedSink(es, root) == Some(h) && e in es
    ensures Upgrade(es, root)[e] == if e in StandardDescendants(es, root) then Swapped(es[e], h) else es[e]
  {
  }

  /**
    Two scene roots linked to the same sink: after both upgrades, every
    StandardMaterial descendant of either references the one sink handle.
   */
  lemma ScenesSharingSinkShareHandle(es: Entities, root1: Entity, root2: Entity, h: Handle)
    requires Acyclic(es)
    requires root1 in es && root2 in es && es[root1].scene.Some? && es[root1].scene == es[root2].scene
    requires LinkedSink(es, root1) == Some(h)
    ensures forall d | d in StandardDescendants(es, root1) + StandardDescendants(es, root2) ::
              Upgrade(Upgrade(es, root1), root2)[d].interact == Some(h)
              && Upgrade(Upgrade(es, root1), root2)[d].standard.None?
  {
    var es1 := Upgrade(es, root1);
    var es2 := Upgrade(es1, root2);
    UpgradeKeepsSubtreeAndSink(es, root1, root2);
    assert LinkedSink(es1, root2) == Some(h);
    forall d | d in StandardDescendants(es, root1) + StandardDescendants(es, root2)
      ensures es2[d].interact == Some(h) && es2[d].standard.None?
    {
      UpgradeAt(es, root1, h, d);
      UpgradeAt(es1, root2, h, d);
    }
  }

  /* === Sink handles === */

  /** Every `InteractionSink` handle names an InteractMaterial entry. */
  ghost predicate SinksReady(es: Entities, interact: seq<InteractMaterial>) {
    forall e | e in es && es[e].sink.Some? :: Resolves(es[e].sink.value, interact)
  }

  /** No two sinks share an InteractMaterial entry. */
  ghost predicate SinksDistinct(es: Entities) {
    forall e1, e2 | e1 in es && e2 in es && e1 != e2 && es[e1].sink.Some? && es[e2].sink.Some? ::
      es[e1].sink.value != es[e2].sink.value
  }

  /** Every `MeshMaterial3d<InteractMaterial>` handle names an InteractMaterial entry. */
  ghost predicate InteractRefsResolve(es: Entities, interact: seq<InteractMaterial>) {
    forall e | e in es && es[e].interact.Some? :: Resolves(es[e].interact.value, interact)
  }

  /** `e` with its `InteractionSink.material` set to `h`. */
  function WithSinkMaterial(es: Entities, e: Entity, h: Handle): Entities
    requires e in es
  {
    es[e := es[e].(sink := Some(h))]
  }

  /**
    The construction hook's effect (a new store entry, its handle recorded
    on the sink) keeps every sink handle resolvable and distinct, and keeps
    every existing material reference resolvable.
   */
  lemma InstallSinkKeepsInvariants(es: Entities, interact: seq<InteractMaterial>, e: Entity, m: InteractMaterial)
    requires e in es
    requires SinksReady(es - {e}, interact) && SinksDistinct(es - {e})
    ensures SinksReady(WithSinkMaterial(es, e, Slot(|interact|)), interact + [m])
    ensures SinksDistinct(WithSinkMaterial(es, e, Slot(|interact|)))
    ensures InteractRefsResolve(es, interact) ==> InteractRefsResolve(WithSinkMaterial(es, e, Slot(|interact|)), interact + [m])
  {
    var es' := WithSinkMaterial(es, e, Slot(|interact|));
    forall e1 | e1 in es' && e1 != e && es'[e1].sink.Some? ensures Resolves(es'[e1].sink.value, interact) {
      assert e1 in es - {e};
    }
    forall e1, e2 | e1 in es' && e2 in es' && e1 != e2 && es'[e1].sink.Some? && es'[e2].sink.Some?
      ensures es'[e1].sink.value != es'[e2].sink.value
    {
      if e1 != e && e2 != e {
        assert e1 in es - {e} && e2 in es - {e};
      }
    }
  }

  /** Recording a handle twice keeps the second; the rest of the world is the same either way. */
  lemma WithSinkMaterialTwice(es: Entities, e: Entity, h1: Handle, h2: Handle)
    requires e in es
    ensures WithSinkMaterial(WithSinkMaterial(es, e, h1), e, h2) == WithSinkMaterial(es, e, h2)
    ensures WithSinkMaterial(es, e, h1) - {e} == es - {e}
  {
  }

  /** A change that keeps every sink component keeps both sink invariants. */
  lemma SinksKept(es: Entities, es': Entities, interact: seq<InteractMaterial>)
    requires MaterialsOnly(es, es')
    ensures SinksReady(es', interact) == SinksReady(es, interact)
    ensures SinksDistinct(es') == SinksDistinct(es)
  {
  }

  /** Dropping one entity keeps the sink invariants of the rest. */
  lemma SinkInvariantsWithout(es: Entities, interact: seq<InteractMaterial>, e: Entity)
    requires SinksReady(es, interact) && SinksDistinct(es)
    ensures SinksReady(es - {e}, interact) && SinksDistinct(es - {e})
  {
  }

  /** An upgrade only installs the resolved sink's handle, so every material reference stays resolvable. */
  lemma UpgradeKeepsRefsResolvable(es: Entities, interact: seq<InteractMaterial>, root: Entity)
    requires Acyclic(es) && SinksReady(es, interact) && InteractRefsResolve(es, interact)
    ensures LinkedSink(es, root).Some? ==> Resolves(LinkedSink(es, root).value, interact)
    ensures InteractRefsResolve(Upgrade(es, root), interact)
  {
  }
}
