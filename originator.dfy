/**
 * The originator of the memento pattern: an image editor that owns a pixel
 * buffer and a handful of scalar settings, edits them in place, captures
 * them into an opaque snapshot (a memento) and restores them from one.
 */
module Originator {

  /** A byte of the RGB pixel buffer. */
  type byte = b: int | 0 <= b < 0x100

  /** A C# `int`: a 32-bit two's-complement integer. */
  type int32 = x: int | -0x8000_0000 <= x < 0x8000_0000

  /** Unchecked 32-bit arithmetic: the value C# keeps after an `int` addition. */
  function WrapInt32(x: int): (r: int32)
    ensures (r - x) % 0x1_0000_0000 == 0
    ensures -0x8000_0000 <= x < 0x8000_0000 ==> r == x
  {
    (x + 0x8000_0000) % 0x1_0000_0000 - 0x8000_0000
  }

  /** Every field of the editor at one instant. */
  datatype EditorState = EditorState(
    pixels: seq<byte>,
    width: int32,
    height: int32,
    brightness: int32,
    filter: string,
    rotation: real)
  {
    /** Non-negative dimensions and a buffer of three bytes per pixel. */
    predicate WellFormed() {
      0 <= width && 0 <= height && |pixels| == width * height * 3
    }
  }

  /**
   * A snapshot as the caretaker sees it: opaque. `ImageMemento` is the only
   * kind this editor produces (carrying its state and the clock reading at
   * capture); `Foreign` stands for any other implementation of the memento
   * interface, which the editor refuses to restore from.
   */
  datatype Memento =
    | ImageMemento(state: EditorState, date: int)
    | Foreign(name: string)

  /** The display label a memento gives for itself (its name in the history listing). */
  datatype Label =
    | ImageLabel(date: int, width: int32, height: int32, brightness: int32, filter: string)
    | ForeignLabel(name: string)

  function Name(m: Memento): Label {
    match m
    case ImageMemento(s, date) => ImageLabel(date, s.width, s.height, s.brightness, s.filter)
    case Foreign(name) => ForeignLabel(name)
  }

  /** A memento the editor could have produced: foreign, or holding a well-formed state. */
  predicate Restorable(m: Memento) {
    m.ImageMemento? ==> m.state.WellFormed()
  }

  /**
   * The buffer `Array.Resize` leaves behind: the first min(|s|, n) bytes kept
   * by position, every byte past the old end zero.
   */
  function Resized(s: seq<byte>, n: nat): (r: seq<byte>)
    ensures |r| == n
    ensures forall i | 0 <= i < n && i < |s| :: r[i] == s[i]
    ensures forall i | |s| <= i < n :: r[i] == 0
  {
    if n <= |s| then s[..n] else s + seq(n - |s|, _ => 0)
  }

  /** The outcome of `Restore`; the failure stands for the exception the source throws. */
  datatype RestoreOutcome = Restored | UnknownMementoClass

  class ImageEditor {
    var pixels: array<byte>
    var width: int32
    var height: int32
    var brightness: int32
    var filter: string
    var rotation: real

    /** The buffer holds exactly three bytes for each pixel of the current dimensions. */
    ghost predicate Valid()
      reads this
    {
      0 <= width && 0 <= height && pixels.Length == width * height * 3
    }

    /** The editor's state as a value. */
    function State(): (s: EditorState)
      reads this, pixels
      ensures s.WellFormed() <==> Valid()
    {
      EditorState(pixels[..], width, height, brightness, filter, rotation)
    }

    /** A blank image: every byte zero, brightness 0, filter "None", rotation 0. */
    constructor (width: int32, height: int32)
      requires 0 <= width && 0 <= height && width * height * 3 < 0x8000_0000
      ensures Valid() && fresh(pixels)
      ensures this.width == width && this.height == height
      ensures pixels.Length == width * height * 3
      ensures forall i | 0 <= i < pixels.Length :: pixels[i] == 0
      ensures brightness == 0 && filter == "None" && rotation == 0.0
    {
      var n := width * height * 3;
      this.width := width;
      this.height := height;
      pixels := new byte[n](_ => 0);
      brightness := 0;
      filter := "None";
      rotation := 0.0;
    }

    /** Adds `value` to the brightness (with 32-bit wrap-around); nothing else changes. */
    method ApplyBrightness(value: int32)
      modifies this
      ensures pixels == old(pixels)
      ensures State() == old(State()).(brightness := WrapInt32(old(brightness) + value))
    {
      brightness := WrapInt32(brightness + value);
    }

    /** Replaces the filter name; nothing else changes. */
    method ApplyFilter(filter: string)
      modifies this
      ensures pixels == old(pixels)
      ensures State() == old(State()).(filter := filter)
    {
      this.filter := filter;
    }

    /** Adds `degrees` to the rotation, not normalised modulo 360; nothing else changes. */
    method Rotate(degrees: real)
      modifies this
      ensures pixels == old(pixels)
      ensures State() == old(State()).(rotation := old(rotation) + degrees)
    {
      rotation := rotation + degrees;
    }

    /**
     * Sets the dimensions and resizes the buffer to `newWidth * newHeight * 3`
     * by raw index, as `Array.Resize` does: the same array when the length
     * does not change, otherwise a fresh one with the old prefix and zeros.
     */
    method Crop(newWidth: int32, newHeight: int32)
      requires 0 <= newWidth && 0 <= newHeight && newWidth * newHeight * 3 < 0x8000_0000
      modifies this
      ensures Valid()
      ensures State() == old(State()).(
        pixels := Resized(old(pixels[..]), newWidth * newHeight * 3),
        width := newWidth,
        height := newHeight)
      ensures if old(pixels.Length) == newWidth * newHeight * 3
              then pixels == old(pixels) else fresh(pixels)
    {
      width := newWidth;
      height := newHeight;
      var n := newWidth * newHeight * 3;
      if n != pixels.Length {
        var kept := Resized(pixels[..], n);
        pixels := new byte[n](i requires 0 <= i < n => kept[i]);
        assert pixels[..] == kept;
      } else {
        assert Resized(pixels[..], n) == pixels[..];
      }
    }

    /**
     * Captures the current state. The memento holds the buffer's contents as
     * a value, so no later edit of the editor can reach it.
     */
    method Save(now: int) returns (m: Memento)
      ensures m.ImageMemento? && m.date == now
      ensures m.state == State()
      ensures Valid() ==> Restorable(m)
    {
      m := ImageMemento(EditorState(pixels[..], width, height, brightness, filter, rotation), now);
    }

    /**
     * Restores every field from a memento of this editor's own kind, cloning
     * the buffer; any other kind fails before a field is touched.
     */
    method Restore(m: Memento) returns (outcome: RestoreOutcome)
      modifies this
      ensures outcome == Restored <==> m.ImageMemento?
      ensures m.ImageMemento? ==> State() == m.state && fresh(pixels)
      ensures m.Foreign? ==> unchanged(this)
    {
      if !m.ImageMemento? {
        return UnknownMementoClass;
      }
      var s := m.state;
      pixels := new byte[|s.pixels|](i requires 0 <= i < |s.pixels| => s.pixels[i]);
      assert pixels[..] == s.pixels;
      width := s.width;
      height := s.height;
      brightness := s.brightness;
      filter := s.filter;
      rotation := s.rotation;
      outcome := Restored;
    }
  }
}
