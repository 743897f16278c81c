# scoped-ops: scoped pushes onto a vector, in Dafny

The library makes a change to a `Vec` undo itself when its scope ends.
`pushed(value)` appends `value` to the vector at once and returns a `Push`
handle. When the handle is dropped, it pops the last element again. A
debug assertion flags an empty vector at that point ("Someone has illicitly
popped an element!"). A `Push` offers the same capability as a `Vec`: mutable
access to one backing vector through `vec_mut`. So a push can be applied to
a push. Unwinding nested pushes innermost-first brings back every earlier
state.

The model has three modules:

- `ScopedOps` (`scoped_ops.dfy`) is the engine. `Vec<T>` is a class whose
  `elems` the methods change in place. The datatype `Scoped<T>` is
  `Raw(vec)` or `Nested(push)`: anything that implements the capability.
  `Push<T>` is a class holding the `Scoped` value it was applied to. Ghost
  fields record the contents before the push and the pushed value. `VecMut`
  walks only immutable fields, so every handle of a chain names the same
  backing vector without reading the heap. `Push.Live()` says the backing
  vector holds exactly the contents from before the push followed by the
  pushed element. It holds whenever every handle made after this one has
  been dropped in reverse order and nothing else changed the vector. A ghost
  `log` on `Vec` records every push and pop. `RunScope`/`RunScopes` drive the
  engine through an arbitrary tree of nested blocks. They are proved to
  produce the states that `Scopes.ScopeTrace` specifies, to issue exactly the
  operations `Scopes.ScopeOps` lists, and to leave the vector as they found it.
- `Scopes` (`scopes.dfy`) gives the meaning of nested scopes on plain
  sequences. `ScopeTrace` lists the states a block is meant to show.
  `ScopeOps` lists the appends and pop-lasts a block issues; the engine's
  `RunScope` is proved to log exactly these. `Replay` runs such a list on a
  sequence, and a pop on an empty sequence is a failure there. `ScopeReplay`
  proves that replaying `ScopeOps` never fails and passes through exactly
  `ScopeTrace`.
- `LibTests` (`lib_tests.dfy`) holds the library's doc example and its two
  tests as methods. Each postcondition states the contents the method observes.

Rust drops a handle automatically at the end of its scope. Here the caller
calls `Push.Drop()` explicitly, at the point where Rust would drop the handle.
For a temporary, that point is the end of the statement.

`src/lib.rs` implements only `Push`, so only `Push` is modelled.

## Model

| member | source | states |
|---|---|---|
| `ScopedOps.Vec.Push` | src/lib.rs:33 | the vector's new contents are the old ones with the value appended; the push is logged |
| `ScopedOps.Vec.Pop` | src/lib.rs:55 | on an empty vector: returns `None` and changes nothing; otherwise: returns the last element and leaves exactly the elements before it; the pop is logged |
| `ScopedOps.SharedBacking` | src/lib.rs:38-66 | `vec_mut` of a vector is the vector itself and of a handle is its target's, so every handle in a nesting chain has the same backing vector as the outermost value: all of them read and write one vector |
| `ScopedOps.SharedView` | src/lib.rs:28-30 | `as_slice` read through any handle of a chain shows the same contents as read through the outermost value |
| `ScopedOps.Scoped.Pushed` | src/lib.rs:32-35 | appends the value to the backing vector: one element longer, earlier elements unchanged. Returns a fresh handle that wraps the receiver, shares its backing vector and is live |
| `ScopedOps.Push.constructor` | src/lib.rs:51 | built right after a push (requires the target's contents to be the recorded contents plus the recorded value): the handle wraps its target, is well formed (its chain down to a vector is finite) and is live |
| `ScopedOps.Push.Drop` | src/lib.rs:53-57 | requires a non-empty backing vector (the debug assertion). Removes exactly the last element. If the handle was live, the contents are again those from just before its push |
| `ScopedOps.RunScope` | src/lib.rs:70-82 | running a push with blocks nested on its handle, then dropping it, shows exactly the states of `ScopeTrace`, issues exactly the operations of `ScopeOps`, and restores the vector |
| `ScopedOps.RunScopes` | src/lib.rs:70-82 | sibling blocks run one after another each show their `ScopeTrace` from the same entry state, issue exactly `ScopesOps`, and the vector is restored |
| `Scopes.Step` | src/lib.rs:32-57 | a push yields the input extended by the value. A pop fails exactly on an empty vector, and otherwise yields the input minus its last element |
| `Scopes.Replay` | src/lib.rs:53-57 | a successful replay yields one state per operation |
| `Scopes.ReplayAppend` | src/lib.rs:70-82 | replaying two operation lists in a row is replaying the second from where the first ended |
| `Scopes.ScopeReplay` | src/lib.rs:70-82 | the pushes and pops of any nested block never pop an empty vector. Their states are exactly `ScopeTrace`, so LIFO unwinding restores every intermediate state |
| `Scopes.ScopesReplay` | src/lib.rs:70-82 | the same for a run of sibling blocks |
| `Scopes.ScopesTraceFinal` | src/lib.rs:7-13 | a run of sibling blocks ends in the state it started from |
| `Scopes.ScopeTraceAbove` | src/lib.rs:53-57 | in a block's `ScopeTrace`, every state before the drop extends the entry contents followed by the block's value, and the last state is the entry state |
| `Scopes.ScopesTraceAbove` | src/lib.rs:70-82 | every state in the `ScopesTrace` of a run of sibling blocks extends the state they were entered in |
| `LibTests.DocExample` | src/lib.rs:4-14 | pushing 2 onto [1] shows [1, 2]; after the drop the vector is [1] |
| `LibTests.ScopedVecTest` | src/lib.rs:70-82 | the nested test passes through [1], [1,2], [1,2,3], [1,2], [1,2,-3], [1,2], [1], [1,-2], [1] |
| `LibTests.ScopedVecTestAsScopes` | src/lib.rs:70-82 | the same test written as a tree of blocks, run by `RunScopes`, shows the same states |
| `LibTests.MustUseTest` | src/lib.rs:85-90 | a push whose handle is discarded at once leaves [1] as [1] |

## Left out

- Rust lifetimes, the borrow checker and the sealed `private` module. Rust uses them to enforce exclusive access and LIFO release. Here, `Push.Drop` requires a non-empty vector, and its postcondition gives the exact restoration only under `Live()`. `Live()` holds whenever every later handle has been dropped in reverse order and nothing else changed the vector; it can also hold after out-of-order drops that happen to leave the same contents.
- Automatic drop at scope end, and the guarantee that each handle is dropped exactly once. The model's callers call `Drop` explicitly; nothing in the Dafny types stops a second call.
- `ScopedOps.Push.Drop`: release builds compile the debug assertion out, and then a drop on an empty vector is silently a no-op. The model makes the assertion a precondition and does not model release mode.
- The `#[must_use]` lint and the note about checking that it warns: these concern tooling, not behaviour.
- Pop, Assign/Update and Noop handles: they are not in `src/lib.rs`.
- `Vec` capacity and memory layout: only element-wise contents are modelled. `as_slice` takes `&mut self` in the source but only reads, so it is a function here.
