# Interaction sinks and material upgrade, in Dafny

This project models the interaction subsystem of a small Bevy application.
An `InteractionSink` entity is a hitbox for a group of glTF scenes. When the
sink component is added, its `on_add` hook clones the shared palette
`StandardMaterial` into a new `InteractMaterial` asset and stores that
handle on the sink. A scene root carries an `InteractiveScene` link to its
sink. When the scene instance is ready, an observer follows root → link →
sink. It then walks every descendant of the root and swaps each
`MeshMaterial3d<StandardMaterial>` for `MeshMaterial3d(sink.material)`.
The swaps are queued as commands and applied afterwards. Every scene linked
to one sink therefore ends up sharing one material handle.

Files and modules:

- `ecs.dfy`, module `Ecs`: the world as a map from entity to a `Node` of
  optional components, and asset handles as slots in sequence-backed
  stores. It also holds the hierarchy: acyclicity means some ranking puts
  every child below its parent. The descendant walk `Descendants` is the
  depth-first unfolding of the root's `Children`. The `Command` type and
  `Apply` model the deferred command buffer.
- `interaction.dfy`, module `Interaction`: the spec functions.
  `LinkedSink` is the root → sink resolution, and `Upgrade` is the
  observer's effect on the world. The module also holds the invariants on
  sink handles and the lemmas about these functions.
- `app.dfy`, module `App`: class `World`. Its fields are the entity map,
  `Assets<StandardMaterial>`, `Assets<InteractMaterial>` and the
  `SharedHandles` resource. Its methods are the startup system's
  palette setup, the construction hook, the component insertion that fires
  the hook, the breadth-first descendant iterator, the observer building its
  command buffer, the command flush, and the whole event handling. Each
  method is proved against the functions above.

## Model

| member | source | states |
|---|---|---|
| `Ecs.Descendants` | src/interaction.rs:82 | the depth-first pre-order unfolding of the root's `Children`, the reference for the walk of `iter_descendants(root)` (which is breadth-first; `App.World.IterDescendants` yields the same multiset): it never yields the root itself, and is empty when the root does not exist |
| `Ecs.DescendantsLeastClosed` | src/interaction.rs:82 | the descendants are exactly the least set that contains the root's children and is closed under taking children |
| `Ecs.DescendantsKept` | src/interaction.rs:82-88 | a change that keeps every `Children` list keeps the hierarchy acyclic and keeps every descendant walk unchanged |
| `Ecs.ApplyOnlyMaterials` | src/interaction.rs:85-88 | executing queued remove/insert commands changes only the two material components: the hierarchy, scene links and sinks stay the same, and entities no command targets are untouched |
| `Interaction.Upgrade` | src/interaction.rs:65-91 | the observer's effect changes only material components and leaves the hierarchy acyclic |
| `Interaction.UnlinkedUpgradeIsNoOp` | src/interaction.rs:74-79 | with no `InteractiveScene` on the root, or a link to a missing entity or to one without `InteractionSink`, the world is unchanged |
| `Interaction.UpgradeKeepsSubtreeAndSink` | src/interaction.rs:74-82 | after an upgrade every root has the same descendants and resolves to the same sink handle as before, so a later event sees the same subtree and sink |
| `Interaction.UpgradeReplacesStandard` | src/interaction.rs:82-90 | after a resolved upgrade, no live descendant keeps a StandardMaterial, every descendant that had one references the sink handle, and the root has no StandardMaterial descendant left |
| `Interaction.UpgradeTouchesNothingElse` | src/interaction.rs:82-88 | the root, descendants without a StandardMaterial and entities outside the subtree are unchanged; on changed entities only the material components differ |
| `Interaction.UpgradeChangesExactlyStandardDescendants` | src/interaction.rs:84-88 | the set of changed entities equals the set of StandardMaterial descendants before the upgrade, so the two counts are equal |
| `Interaction.UpgradeIdempotent` | src/interaction.rs:84 | a second upgrade of the same root changes nothing |
| `Interaction.ScenesSharingSinkShareHandle` | src/interaction.rs:34-37 | two roots linked to the same sink: after both upgrades, every StandardMaterial descendant of either references the one sink handle |
| `Interaction.UpgradeKeepsRefsResolvable` | src/interaction.rs:76-88 | when every sink handle resolves, the resolved handle resolves and every InteractMaterial reference still resolves after the upgrade |
| `Interaction.InstallSinkKeepsInvariants` | src/interaction.rs:111-120 | recording a fresh store slot on one sink keeps every sink handle resolvable and pairwise distinct, and keeps every material reference resolvable |
| `App.World.SetupScene` | src/main.rs:75-78 | adds one default StandardMaterial and records its handle as the palette, which then resolves to it |
| `App.World.SetupInteractionSink` | src/interaction.rs:100-121 | given a resolvable palette and a sink on `e`, appends exactly one InteractMaterial whose base is the palette. It sets only `e`'s sink handle, to the new slot. The slot differs from every earlier one, and the sink invariants are kept |
| `App.World.AddInteractionSink` | src/interaction.rs:39-44 | adding the sink component runs the hook, with the effect above, exactly when the entity had none; re-inserting replaces the handle with the placeholder and adds no asset; either way every InteractMaterial reference that resolved still resolves |
| `App.World.IterDescendants` | src/interaction.rs:82 | the breadth-first walk yields the same entities, with the same multiplicities, as the depth-first `Descendants` |
| `App.World.UpgradeInteractionMaterials` | src/interaction.rs:65-91 | queues no command when resolution fails. With a resolved sink it targets exactly the StandardMaterial descendants, and applying its buffer gives exactly `Upgrade` |
| `App.QueueMaterialSwaps` | src/interaction.rs:82-90 | the loop queues a remove/insert pair for exactly the walked entities that are live and have a StandardMaterial; applying the buffer rewrites exactly those entities to the sink handle |
| `App.World.ApplyCommands` | src/interaction.rs:85-88 | the flush leaves the world as `Apply` of the buffer, changes no store or resource, and keeps every sink handle resolvable and pairwise distinct |
| `App.World.OnSceneInstanceReady` | src/interaction.rs:26 | handling a scene-ready event leaves the world as `Upgrade` says, keeps it acyclic, adds no material asset, keeps every sink handle resolvable and pairwise distinct, and keeps every InteractMaterial reference resolvable |

## Left out

- Rendering, the shader extension's behaviour, the `#[require(Pickable)]` component and the plugin wiring are not modelled. They are renderer and framework code.
- The palette propagation system in src/shaders/interaction.rs is commented out in the source, so it is not modelled.
- Camera movement, lights, `spawn_tiles` (timing, asset loading, meshes) and `MapTransform::to_vec3` are not modelled. They are I/O, clock or floating-point scaffolding. From `setup_scene`, only the palette resource it creates is modelled.
- Bevy's scheduler, observer dispatch and hook dispatch are not modelled. `SceneInstanceReady` emission is modelled only as a call to `OnSceneInstanceReady`. Command application is modelled as an immediate flush of one buffer, with no interleaving with other systems' commands.
- Asset handles are the next store index, not generational ids, and reference counting is absent. No asset is ever removed, so a handle stays valid forever.
- Hierarchies with a cycle in `Children` are excluded: `World.Valid()` and every upgrade lemma require `Acyclic`. On such a hierarchy the source's descendant walk would not terminate, and the observer would queue commands without limit; the model does not capture that behaviour.
- Spawning is not modelled: `World` starts with no entities and a caller supplies `entities`. `AddInteractionSink` stands for the insertion that spawning with `InteractionSink::default()` performs in src/main.rs.
- Despawning entities is not modelled. A dangling scene link is covered by taking arbitrary worlds in which the linked entity is missing.
- A command whose target entity is not live does nothing in the model. The observer only queues commands for entities it has just seen live, so this case does not arise.
- The `SharedHandles` resource is read directly. From `setup_scene`, the deferred `insert_resource` is modelled as taking effect at once.
- The panic points of the construction hook are modelled as preconditions of `SetupInteractionSink`, not as an error result. `world.resource::<SharedHandles>()` panics when the resource is missing and one `unwrap` fires on a missing palette asset: `Palette(sharedHandles, standardMaterials).Some?` covers both. The other `unwrap` fires on a missing sink component, and `entity_mut` on a missing entity: `e in entities && entities[e].sink.Some?` covers both. The lookups of `Assets<StandardMaterial>` and `Assets<InteractMaterial>` cannot fail in the model, because both stores are always-present fields of `World`.
