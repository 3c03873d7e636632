# Memento undo history for an image editor, in Dafny

This project models the undo history of a small image editor built on the
Memento design pattern, and proves what its two parts promise.

- The **originator** (`Originator.ImageEditor`, `originator.dfy`) owns the
  mutable editing state: a pixel byte buffer (an `array<byte>`), width,
  height, brightness, filter name and rotation. It edits these fields in
  place (`ApplyBrightness`, `ApplyFilter`, `Rotate`, `Crop`). `Save` captures
  them into a memento, and `Restore` writes them back from one. A memento is
  the closed datatype `Memento`. `ImageMemento` is the editor's own kind: it
  carries an `EditorState` value and the clock reading at capture. `Foreign`
  stands for any other implementation of the memento interface, which the
  editor refuses.
- The **caretaker** (`Caretaker.History`, `caretaker.dfy`) keeps a LIFO list
  of opaque mementos (a `seq<Memento>` field). `Backup` pushes a snapshot.
  `Undo` pops mementos until the editor accepts one or the list is empty.
  `ShowHistory` lists the mementos' labels, oldest first. The recursive
  retry of `Undo` is a `while` loop whose measure is the list length. The
  recursive function `UndoSpec` specifies it, and lemmas about that
  function give the stack-level properties.
- `scenarios.dfy` replays the demo driver and a few usage scenarios of the
  history as client methods. They are proved from the contracts above alone.

No aliasing is built into the model. A memento's buffer is a `seq<byte>`
value, so no later edit of the editor's array can change it. On the editor
side, `Restore` and a resizing `Crop` state `fresh(pixels)`: the editor
always works on a buffer of its own.

The object invariant `ImageEditor.Valid()` says the buffer holds three bytes
per pixel of the current dimensions. `History.Valid()` adds that every stored
`ImageMemento` holds a state of that shape. In the source this always holds,
because only `Save` can build an `ImageMemento` (the class is private). Both
invariants are established by the constructors and preserved by every
operation.

Two details of the source shape the contracts:
- `_brightness` is a C# `int` (src/MementoPattern/ImageEditor.cs:16), so the
  `+=` at line 35 wraps around at 32 bits.
- In the sequence "backup S0, brighten, backup S1, apply a filter, crop,
  undo, undo" (`Scenarios.UndoTwice`), the first undo brings back S1 with
  filter "None", because S1 was taken before `ApplyFilter`.

## Model

| member | source | states |
|---|---|---|
| `Originator.WrapInt32` | src/MementoPattern/ImageEditor.cs:35 | C# unchecked `int` addition: the result is congruent to the exact sum modulo 2^32 and equals it when the sum fits in 32 bits |
| `Originator.Resized` | src/MementoPattern/ImageEditor.cs:55 | `Array.Resize` semantics: the result has the new length, keeps every byte below min(old, new length) at its index, and is zero beyond the old length |
| `Originator.ImageEditor.State` | src/MementoPattern/ImageEditor.cs:13-18 | the editor's fields as a value; well-formed exactly when the editor's buffer-size invariant holds |
| `Originator.ImageEditor.constructor` | src/MementoPattern/ImageEditor.cs:20-27 | the new buffer has length width*height*3, every byte is 0, brightness 0, filter "None", rotation 0, and the invariant holds |
| `Originator.ImageEditor.ApplyBrightness` | src/MementoPattern/ImageEditor.cs:33-37 | brightness becomes old brightness plus value (32-bit wrap); every other field and the same buffer are kept |
| `Originator.ImageEditor.ApplyFilter` | src/MementoPattern/ImageEditor.cs:39-43 | the filter becomes the argument; every other field and the same buffer are kept |
| `Originator.ImageEditor.Rotate` | src/MementoPattern/ImageEditor.cs:45-49 | rotation becomes old rotation plus degrees, not normalised; every other field and the same buffer are kept |
| `Originator.ImageEditor.Crop` | src/MementoPattern/ImageEditor.cs:51-57 | width and height become the arguments, the buffer becomes the old one resized to w*h*3 (prefix kept, zero-extended), the invariant holds, and the array is the same one exactly when the length did not change (a fresh one otherwise); nothing else changes |
| `Originator.ImageEditor.Save` | src/MementoPattern/ImageEditor.cs:72-81 | returns the editor's own memento kind holding every current field and the current buffer contents, stamped with the clock reading; the editor is not changed; a valid editor yields a restorable memento |
| `Originator.ImageEditor.Restore` | src/MementoPattern/ImageEditor.cs:86-101 | succeeds exactly for the editor's own memento kind; then every field equals the memento's and the buffer is a fresh copy; for any other kind it fails and no field changes |
| `Caretaker.UndoSpec` | src/MementoPattern/History.cs:29-48 | one undo: the remaining list is a prefix of the old one; all discarded mementos above the restored one were refused; either none could be restored, so the list is emptied and the state kept, or the topmost restorable memento was popped and the state is its contents |
| `Caretaker.UndoEmptyIsNoOp` | src/MementoPattern/History.cs:31-35 | any number of undos on an empty history leave the list empty and the state unchanged |
| `Caretaker.BackupThenUndo` | src/MementoPattern/History.cs:23-42 | an undo right after a backup restores the backed-up state and leaves the earlier list |
| `Caretaker.UndoSkipsForeign` | src/MementoPattern/History.cs:40-47 | refused mementos on top of the list do not affect the outcome of undo: it acts as on the list without them |
| `Caretaker.StackRoundTrip` | src/MementoPattern/History.cs:23-47 | after backups at states S0..Sn, k undos (1 <= k <= n+1) leave the editor in S(n+1-k) and the list holding S0..S(n-k) |
| `Caretaker.History.constructor` | src/MementoPattern/History.cs:15-21 | an empty list bound to the given editor; the invariant holds when the editor's does |
| `Caretaker.History.Backup` | src/MementoPattern/History.cs:23-27 | the list grows by exactly one, the memento of the current state, appended at the end; earlier entries and the editor state are kept |
| `Caretaker.History.Undo` | src/MementoPattern/History.cs:29-48 | the new list and editor state are exactly `UndoSpec` of the old ones; on an empty list nothing changes; the loop terminates because each retry works on a strictly shorter list; the invariant is preserved |
| `Caretaker.History.ShowHistory` | src/MementoPattern/History.cs:50-57 | one label per stored memento, in insertion order (oldest first), each the memento's own name; the list is not changed |
| `Scenarios.DemoRun` | src/Program.cs:11-41 | the demo run: after three undos the editor is 1920x1080, all-zero buffer, brightness 20, filter "None", rotation 0, and only the first backup is left |
| `Scenarios.UndoTwice` | src/MementoPattern/History.cs:29-48 | on a 100x100 image, with an unsaved filter change and crop to 50x50 after two backups, the first undo brings back the second backup (brightness 20, original size) and the second undo the first |
| `Scenarios.UndoPastForeign` | src/MementoPattern/History.cs:37-47 | a foreign memento pushed between two valid ones is skipped: one undo restores the valid one beneath it and shortens the list by two |
| `Scenarios.UndoOnEmpty` | src/MementoPattern/History.cs:31-35 | undo on a fresh history, twice, changes neither the editor nor the list |
| `Scenarios.SaveEditRestore` | src/MementoPattern/ImageEditor.cs:72-98 | save, then brightness, filter, rotation and crop edits with any arguments, then restore: the editor is exactly in the saved state, in a fresh buffer |

## Left out

- Console output (`Console.WriteLine` in every operation) and `DisplayInfo`: I/O with no effect on state.
- The clock: `DateTime.Now` in the memento becomes a parameter `now` of `Save` and `Backup`.
- `GetName` and `GetDate`: time and culture formatting. A memento's name is the structured `Label` value holding the same parts (time, dimensions, brightness, filter), and `ShowHistory` returns these labels instead of printing them.
- Rotation is a C# `double`. It is modelled as a `real` accumulator without IEEE rounding.
- Negative or overflowing dimensions. The constructor and `Crop` require non-negative dimensions with `w*h*3` below 2^31, and the model says nothing about other inputs. In the source, `new byte[...]` and `Array.Resize` throw only when the `int` product `w*h*3` is negative. That product may have wrapped around, and a product that wraps to a non-negative value is accepted. When the product is non-negative but a dimension is negative, the source also accepts it: `new ImageEditor(-1, -1)` allocates 3 bytes, and `Crop(-2, -3)` resizes to 18 bytes. In both cases the negative dimensions are stored. The .NET array-length limit just below 2^31 is not modelled.
- A null memento passed to `Restore` (C# throws for it too) is not modelled; `Memento` has no null value.
- `IMemento` (src/MementoPattern/IMemento.cs) is represented by the closed `Memento` datatype. The caretaker only stores mementos and hands them back, and reads them only through `Name`. The module system does not enforce this, because export sets are not used.
- Any exception other than the unknown-memento failure, which `Undo`'s catch-all would also swallow, cannot arise in the modelled code.
- `Scenarios.UndoPastForeign` appends a `Foreign` memento to `History.mementos` directly. The source does not allow that injection: `_mementos` is private (src/MementoPattern/History.cs:15), only `Backup` adds to it, and `Save` always returns an `ImageMemento`. Through the source's public API, the skip-and-retry path (src/MementoPattern/History.cs:44-46) is therefore unreachable. The model keeps the field public so that this path can be exercised.
- The repeated `Undo` of the stack round-trip is stated on `UndoSpec` (through `UndoTimes`), which `History.Undo` implements exactly. It is not stated as a method-level loop of undos.
