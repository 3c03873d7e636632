/**
 * Client sequences over the editor and its history: the demo driver's run
 * and usage scenarios of the history, each proved from the contracts of
 * `Originator` and `Caretaker` alone. Clock readings are parameters.
 */
module Scenarios {
  import opened Originator
  import opened Caretaker

  /**
   * The demo run: a 1920x1080 image, backups around brightness, filter and
   * rotation edits, an unsaved crop, then three undos. The first undo reverts
   * the crop, the next two the rotation and the filter.
   */
  method DemoRun(t0: int, t1: int, t2: int, t3: int) returns (final: EditorState, left: seq<Memento>)
    ensures final == EditorState(seq(1920 * 1080 * 3, _ => 0), 1920, 1080, 20, "None", 0.0)
    ensures left == [ImageMemento(EditorState(seq(1920 * 1080 * 3, _ => 0), 1920, 1080, 0, "None", 0.0), t0)]
  {
    var editor := new ImageEditor(1920, 1080);
    var history := new History(editor);
    ghost var blank := seq(1920 * 1080 * 3, _ => 0);
    assert editor.pixels[..] == blank;

    history.Backup(t0);
    editor.ApplyBrightness(20);
    history.Backup(t1);
    editor.ApplyFilter("Sepia");
    history.Backup(t2);
    editor.Rotate(90.0);
    history.Backup(t3);
    editor.Crop(1280, 720);
    assert history.Valid();

    history.Undo();
    assert editor.State() == EditorState(blank, 1920, 1080, 20, "Sepia", 90.0);
    history.Undo();
    assert editor.State() == EditorState(blank, 1920, 1080, 20, "Sepia", 0.0);
    history.Undo();
    final, left := editor.State(), history.mementos;
  }

  /**
   * On a 100x100 image: backup S0, brighten, backup S1, change the filter,
   * crop to 50x50 without a backup. The first undo reverts filter and crop
   * to S1, the second brings back S0.
   */
  method UndoTwice(t0: int, t1: int) returns (afterFirst: EditorState, afterSecond: EditorState)
    ensures afterFirst == EditorState(seq(30000, _ => 0), 100, 100, 20, "None", 0.0)
    ensures afterSecond == EditorState(seq(30000, _ => 0), 100, 100, 0, "None", 0.0)
  {
    var editor := new ImageEditor(100, 100);
    var history := new History(editor);
    assert editor.pixels[..] == seq(30000, _ => 0);

    history.Backup(t0);
    editor.ApplyBrightness(20);
    history.Backup(t1);
    editor.ApplyFilter("Sepia");
    editor.Crop(50, 50);

    history.Undo();
    afterFirst := editor.State();
    history.Undo();
    afterSecond := editor.State();
  }

  /**
   * A foreign memento pushed between two of the editor's own is skipped: one
   * undo discards it, restores the valid memento beneath it and so shortens
   * the history by two. The direct push stands for an injection the source's
   * private list does not allow; it exercises the skip-and-retry path.
   */
  method UndoPastForeign(t0: int, t1: int, name: string) returns (restored: EditorState, left: nat)
    ensures restored == EditorState(seq(300, _ => 0), 10, 10, 5, "None", 0.0)
    ensures left == 1
  {
    var editor := new ImageEditor(10, 10);
    var history := new History(editor);
    assert editor.pixels[..] == seq(300, _ => 0);

    history.Backup(t0);
    editor.ApplyBrightness(5);
    history.Backup(t1);
    history.mementos := history.mementos + [Foreign(name)];
    editor.ApplyFilter("Sepia");
    editor.Rotate(45.0);

    history.Undo();
    restored, left := editor.State(), |history.mementos|;
  }

  /** Undo on a fresh, empty history changes nothing and may be repeated. */
  method UndoOnEmpty(width: int32, height: int32) returns (before: EditorState, after: EditorState, left: nat)
    requires 0 <= width && 0 <= height && width * height * 3 < 0x8000_0000
    ensures after == before && left == 0
  {
    var editor := new ImageEditor(width, height);
    var history := new History(editor);
    before := editor.State();
    history.Undo();
    history.Undo();
    after, left := editor.State(), |history.mementos|;
  }

  /**
   * Save, then every kind of edit with arbitrary arguments, then restore from
   * the saved memento: the editor is back in the saved state, in a buffer of
   * its own.
   */
  method SaveEditRestore(editor: ImageEditor, now: int, value: int32, filter: string, degrees: real, newWidth: int32, newHeight: int32)
    returns (saved: EditorState, restored: EditorState)
    requires 0 <= newWidth && 0 <= newHeight && newWidth * newHeight * 3 < 0x8000_0000
    modifies editor
    ensures saved == old(editor.State()) && restored == saved
    ensures editor.State() == old(editor.State()) && fresh(editor.pixels)
  {
    var m := editor.Save(now);
    saved := editor.State();
    editor.ApplyBrightness(value);
    editor.ApplyFilter(filter);
    editor.Rotate(degrees);
    editor.Crop(newWidth, newHeight);
    var outcome := editor.Restore(m);
    restored := editor.State();
  }
}
