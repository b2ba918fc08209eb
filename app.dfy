/**
  The application state the interaction subsystem runs against: the entity
  world, the two material stores and the `SharedHandles` resource, with the
  startup system, the `InteractionSink` construction hook and the
  scene-ready observer as methods that update it in place.
 */
module App {
  import opened Ecs
  import opened Interaction

  class World {
    /** Every live entity and its components. */
    var entities: Entities
    /** `Assets<StandardMaterial>`; a handle `Slot(i)` names entry `i`. */
    var standardMaterials: seq<StandardMaterial>
    /** `Assets<InteractMaterial>`. */
    var interactMaterials: seq<InteractMaterial>
    /** The `SharedHandles` resource, once inserted. */
    var sharedHandles: Option<SharedHandles>

    /** The entity hierarchy has no cycle. */
    ghost predicate Valid()
      reads this
    {
      Acyclic(entities)
    }

    constructor ()
      ensures Valid()
      ensures entities == map[] && standardMaterials == [] && interactMaterials == [] && sharedHandles == None
    {
      entities := map[];
      standardMaterials := [];
      interactMaterials := [];
      sharedHandles := None;
      assert Ranked(map[], map[]);
    }

    /** The part of the startup system that adds a default palette material and records its handle. */
    method SetupScene()
      requires Valid()
      modifies this
      ensures Valid()
      ensures standardMaterials == old(standardMaterials) + [DefaultStandardMaterial]
      ensures sharedHandles == Some(SharedHandles(Slot(|old(standardMaterials)|)))
      ensures entities == old(entities) && interactMaterials == old(interactMaterials)
      ensures Palette(sharedHandles, standardMaterials) == Some(DefaultStandardMaterial)
    {
      var palette := Slot(|standardMaterials|);
      standardMaterials := standardMaterials + [DefaultStandardMaterial];
      sharedHandles := Some(SharedHandles(palette));
    }

    /**
      The `on_add` hook of `InteractionSink`: clone the palette material into
      a new InteractMaterial entry and record its handle on the sink of `e`.
      The palette must resolve and `e` must carry the sink; the source
      unwraps both.
     */
    method SetupInteractionSink(e: Entity)
      requires Valid()
      requires e in entities && entities[e].sink.Some?
      requires Palette(sharedHandles, standardMaterials).Some?
      modifies this
      ensures Valid()
      ensures standardMaterials == old(standardMaterials) && sharedHandles == old(sharedHandles)
      ensures interactMaterials
              == old(interactMaterials) + [InteractMaterial(old(Palette(sharedHandles, standardMaterials)).value, InteractMaterialExt)]
      ensures entities == WithSinkMaterial(old(entities), e, Slot(|old(interactMaterials)|))
      ensures Resolves(entities[e].sink.value, interactMaterials)
      ensures forall i | 0 <= i < |old(interactMaterials)| :: entities[e].sink.value != Slot(i)
      ensures old(SinksReady(entities - {e}, interactMaterials) && SinksDistinct(entities - {e}))
              ==> SinksReady(entities, interactMaterials) && SinksDistinct(entities)
      ensures old(InteractRefsResolve(entities, interactMaterials)) ==> InteractRefsResolve(entities, interactMaterials)
    {
      var palette := sharedHandles.value.paletteMaterial;
      var base := standardMaterials[palette.index];
      var material := InteractMaterial(base, InteractMaterialExt);
      var handle := Slot(|interactMaterials|);
      ghost var es, store := entities, interactMaterials;
      interactMaterials := interactMaterials + [material];
      entities := entities[e := entities[e].(sink := Some(handle))];
      if SinksReady(es - {e}, store) && SinksDistinct(es - {e}) {
        InstallSinkKeepsInvariants(es, store, e, material);
      }
      SameHierarchyKeepsAcyclic(es, entities);
    }

    /**
      Inserting `InteractionSink::default()` on `e`. When `e` had no sink
      the component arrives with the placeholder handle and the `on_add`
      hook fires; when it had one the component is replaced by the default
      and the hook does not fire.
     */
    method AddInteractionSink(e: Entity)
      requires Valid()
      requires e in entities
      requires entities[e].sink.None? ==> Palette(sharedHandles, standardMaterials).Some?
      modifies this
      ensures Valid()
      ensures standardMaterials == old(standardMaterials) && sharedHandles == old(sharedHandles)
      ensures old(entities[e].sink.None?) ==>
                && interactMaterials
                   == old(interactMaterials) + [InteractMaterial(old(Palette(sharedHandles, standardMaterials)).value, InteractMaterialExt)]
                && entities == WithSinkMaterial(old(entities), e, Slot(|old(interactMaterials)|))
      ensures old(entities[e].sink.Some?) ==>
                interactMaterials == old(interactMaterials) && entities == WithSinkMaterial(old(entities), e, Placeholder)
      ensures old(entities[e].sink.None? && SinksReady(entities, interactMaterials) && SinksDistinct(entities))
              ==> SinksReady(entities, interactMaterials) && SinksDistinct(entities)
      ensures old(InteractRefsResolve(entities, interactMaterials)) ==> InteractRefsResolve(entities, interactMaterials)
    {
      ghost var es, store := entities, interactMaterials;
      ghost var ready := SinksReady(es, store) && SinksDistinct(es);
      var adding := entities[e].sink.None?;
      entities := WithSinkMaterial(entities, e, Placeholder);
      SameHierarchyKeepsAcyclic(es, entities);
      if adding {
        WithSinkMaterialTwice(es, e, Placeholder, Slot(|store|));
        if ready {
          SinkInvariantsWithout(es, store, e);
        }
        SetupInteractionSink(e);
      }
    }

    /**
      `Query<&Children>::iter_descendants(root)`: a breadth-first walk of the
      root's subtree, the root excluded. It visits the same entities, as
      often, as the depth-first `Descendants`.
     */
    method IterDescendants(root: Entity) returns (ds: seq<Entity>)
      requires Valid()
      ensures multiset(ds) == multiset(Descendants(entities, root))
    {
      ds := [];
      if root !in entities {
        return;
      }
      ghost var rank := RankOf(entities);
      ghost var bound := rank[root];
      var queue := entities[root].children;
      while queue != []
        invariant Below(entities, rank, queue, bound)
        invariant multiset(ds) + multiset(Unfold(entities, rank, queue, bound))
                  == multiset(Unfold(entities, rank, entities[root].children, bound))
        decreases |Unfold(entities, rank, queue, bound)|
      {
        var child := queue[0];
        UnfoldStep(entities, rank, queue, bound);
        ds := ds + [child];
        queue := queue[1..] + if child in entities then entities[child].children else [];
      }
    }

    /**
      The scene-ready observer up to its command buffer: resolve the root's
      sink, then queue a remove/insert pair for every descendant that has
      a StandardMaterial. Nothing is changed until the buffer is applied.
     */
    method UpgradeInteractionMaterials(root: Entity) returns (cmds: seq<Command>)
      requires Valid()
      ensures LinkedSink(entities, root).None? ==> cmds == []
      ensures LinkedSink(entities, root).Some? ==> Targets(cmds) == StandardDescendants(entities, root)
      ensures Apply(entities, cmds) == Upgrade(entities, root)
    {
      cmds := [];
      if root !in entities || entities[root].scene.None? {
        return;
      }
      var sinkEntity := entities[root].scene.value;
      if sinkEntity !in entities || entities[sinkEntity].sink.None? {
        return;
      }
      var material := entities[sinkEntity].sink.value;
      var ds := IterDescendants(root);
      ElementsOfPermutation(ds, Descendants(entities, root));
      cmds := QueueMaterialSwaps(entities, ds, material);
      forall d ensures d in ds <==> d in Descendants(entities, root) {
        assert d in ds <==> d in Elements(ds);
      }
      assert StandardAmong(entities, ds) == StandardDescendants(entities, root);
      UpgradeIsRewrite(entities, root, material);
    }

    /** The command flush: execute the queued buffer, in order, on the world. */
    method ApplyCommands(cmds: seq<Command>)
      requires Valid()
      modifies this
      ensures Valid()
      ensures entities == Apply(old(entities), cmds)
      ensures standardMaterials == old(standardMaterials) && interactMaterials == old(interactMaterials)
      ensures sharedHandles == old(sharedHandles)
      ensures old(SinksReady(entities, interactMaterials) && SinksDistinct(entities))
              ==> SinksReady(entities, interactMaterials) && SinksDistinct(entities)
    {
      for i := 0 to |cmds|
        invariant entities == Apply(old(entities), cmds[..i])
        invariant standardMaterials == old(standardMaterials) && interactMaterials == old(interactMaterials)
        invariant sharedHandles == old(sharedHandles)
      {
        assert cmds[..i + 1][..i] == cmds[..i];
        entities := Run(entities, cmds[i]);
      }
      assert cmds[..|cmds|] == cmds;
      ApplyOnlyMaterials(old(entities), cmds);
      SameHierarchyKeepsAcyclic(old(entities), entities);
      SinksKept(old(entities), entities, interactMaterials);
    }

    /**
      A `SceneInstanceReady` event for `root`: build the observer's command
      buffer, then apply it. The world ends as `Upgrade` says and no
      material store changes.
     */
    method OnSceneInstanceReady(root: Entity)
      requires Valid()
      modifies this
      ensures Valid()
      ensures entities == Upgrade(old(entities), root)
      ensures standardMaterials == old(standardMaterials) && interactMaterials == old(interactMaterials)
      ensures sharedHandles == old(sharedHandles)
      ensures old(SinksReady(entities, interactMaterials) && SinksDistinct(entities))
              ==> SinksReady(entities, interactMaterials) && SinksDistinct(entities)
      ensures old(InteractRefsResolve(entities, interactMaterials) && SinksReady(entities, interactMaterials))
              ==> InteractRefsResolve(entities, interactMaterials)
    {
      ghost var es := entities;
      var cmds := UpgradeInteractionMaterials(root);
      ApplyCommands(cmds);
      if SinksReady(es, interactMaterials) && InteractRefsResolve(es, interactMaterials) {
        UpgradeKeepsRefsResolvable(es, interactMaterials, root);
      }
    }
  }

  lemma ElementsSnoc(s: seq<Entity>, x: Entity)
    ensures Elements(s + [x]) == Elements(s) + {x}
  {
  }

  /**
    The loop of the observer: for each walked entity that has a
    StandardMaterial, queue its removal and the insertion of `h`. The
    buffer's effect is the rewrite of the walked entities, and it targets
    nothing else.
   */
  method QueueMaterialSwaps(es: Entities, ds: seq<Entity>, h: Handle) returns (cmds: seq<Command>)
    ensures Targets(cmds) == StandardAmong(es, ds)
    ensures Apply(es, cmds) == Rewrite(es, Elements(ds), h)
  {
    cmds := [];
    for i := 0 to |ds|
      invariant Targets(cmds) == StandardAmong(es, ds[..i])
      invariant Apply(es, cmds) == Rewrite(es, Elements(ds[..i]), h)
    {
      var child := ds[i];
      assert ds[..i + 1] == ds[..i] + [child];
      if child in es && es[child].standard.Some? {
        QueueSwapStep(es, ds[..i], child, h, cmds);
        cmds := cmds + [RemoveStandard(child), InsertInteract(child, h)];
      } else {
        QueueSkipStep(es, ds[..i], child, h);
      }
    }
    assert ds[..|ds|] == ds;
  }

  /** The listed entities that are live and have a StandardMaterial. */
  function StandardAmong(es: Entities, ds: seq<Entity>): set<Entity> {
    set d | d in ds && d in es && es[d].standard.Some?
  }

  lemma ElementsOfPermutation(s: seq<Entity>, t: seq<Entity>)
    requires multiset(s) == multiset(t)
    ensures Elements(s) == Elements(t)
  {
    forall x ensures x in s <==> x in t {
      assert x in s <==> x in multiset(s);
      assert x in t <==> x in multiset(t);
    }
  }

  lemma TargetsOfPair(cmds: seq<Command>, e: Entity, h: Handle)
    ensures Targets(cmds + [RemoveStandard(e), InsertInteract(e, h)]) == Targets(cmds) + {e}
  {
    var pair := [RemoveStandard(e), InsertInteract(e, h)];
    TargetsConcat(cmds, pair);
    assert Targets(pair) == {e} by {
      assert pair[0].target == e && pair[1].target == e;
    }
  }

  lemma TargetsConcat(a: seq<Command>, b: seq<Command>)
    ensures Targets(a + b) == Targets(a) + Targets(b)
  {
    forall t | t in Targets(a + b) ensures t in Targets(a) + Targets(b) {
      var j :| 0 <= j < |a + b| && (a + b)[j].target == t;
      if j < |a| { assert (a + b)[j] == a[j]; } else { assert (a + b)[j] == b[j - |a|]; }
    }
    forall t | t in Targets(a) ensures t in Targets(a + b) {
      var j :| 0 <= j < |a| && a[j].target == t;
      assert (a + b)[j] == a[j];
    }
    forall t | t in Targets(b) ensures t in Targets(a + b) {
      var j :| 0 <= j < |b| && b[j].target == t;
      assert (a + b)[|a| + j] == b[j];
    }
  }

  lemma ApplySnoc(es: Entities, cmds: seq<Command>, c: Command)
    ensures Apply(es, cmds + [c]) == Run(Apply(es, cmds), c)
  {
    var all := cmds + [c];
    assert all[..|all| - 1] == cmds;
    assert all[|all| - 1] == c;
  }

  lemma ApplyPair(es: Entities, cmds: seq<Command>, c1: Command, c2: Command)
    ensures Apply(es, cmds + [c1, c2]) == Run(Run(Apply(es, cmds), c1), c2)
  {
    assert cmds + [c1, c2] == (cmds + [c1]) + [c2];
    ApplySnoc(es, cmds + [c1], c2);
    ApplySnoc(es, cmds, c1);
  }

  /** A walked entity with a StandardMaterial: queuing its pair extends the buffer to the longer prefix. */
  lemma QueueSwapStep(es: Entities, prefix: seq<Entity>, e: Entity, h: Handle, cmds: seq<Command>)
    requires e in es && es[e].standard.Some?
    requires Apply(es, cmds) == Rewrite(es, Elements(prefix), h)
    requires Targets(cmds) == StandardAmong(es, prefix)
    ensures Apply(es, cmds + [RemoveStandard(e), InsertInteract(e, h)]) == Rewrite(es, Elements(prefix + [e]), h)
    ensures Targets(cmds + [RemoveStandard(e), InsertInteract(e, h)]) == StandardAmong(es, prefix + [e])
  {
    ElementsSnoc(prefix, e);
    assert StandardAmong(es, prefix + [e]) == StandardAmong(es, prefix) + {e};
    RewriteAddsOne(es, Elements(prefix), e, h);
    ApplyPair(es, cmds, RemoveStandard(e), InsertInteract(e, h));
    TargetsOfPair(cmds, e, h);
  }

  /** A walked entity without a StandardMaterial: the buffer already matches the longer prefix. */
  lemma QueueSkipStep(es: Entities, prefix: seq<Entity>, e: Entity, h: Handle)
    requires !(e in es && es[e].standard.Some?)
    ensures Rewrite(es, Elements(prefix + [e]), h) == Rewrite(es, Elements(prefix), h)
    ensures StandardAmong(es, prefix + [e]) == StandardAmong(es, prefix)
  {
    ElementsSnoc(prefix, e);
    RewriteAddsOne(es, Elements(prefix), e, h);
  }

  /**
    Queuing the pair for one more walked entity: with a StandardMaterial it
    is the pair's effect, otherwise the rewrite is as before.
   */
  lemma RewriteAddsOne(es: Entities, done: set<Entity>, e: Entity, h: Handle)
    ensures Rewrite(es, done + {e}, h)
            == if e in es && es[e].standard.Some?
               then Run(Run(Rewrite(es, done, h), RemoveStandard(e)), InsertInteract(e, h))
               else Rewrite(es, done, h)
  {
  }
}
