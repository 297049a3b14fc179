/** The client window of wayland-egl: its size is kept in the rotated frame of the
    display, so a quarter turn swaps width and height, and the two callbacks tell the
    EGL backend about changes. */
module WlEglWindow {

  datatype Rotation = Rotation0 | Rotation90 | Rotation180 | Rotation270 | InvalidRotation(value: int)

  datatype Window = Window(
    width: int, height: int, dx: int, dy: int,
    attachedWidth: int, attachedHeight: int,
    rotation: Rotation,
    callbacks: bool)  // whether the backend has installed its callbacks

  predicate Sideways(r: Rotation) {
    r == Rotation90 || r == Rotation270
  }

  /** The size as the application sees it, in the window's own frame. */
  function LogicalSize(w: Window): (int, int) {
    if Sideways(w.rotation) then (w.height, w.width) else (w.width, w.height)
  }

  /** wl_egl_window_resize, and whether it calls the resize callback. */
  function Resize(w: Window, width: int, height: int, dx: int, dy: int): (Window, bool) {
    var moved := w.(dx := dx, dy := dy);
    if LogicalSize(w) == (width, height) then (moved, false)
    else if Sideways(w.rotation) then (moved.(width := height, height := width), w.callbacks)
    else (moved.(width := width, height := height), w.callbacks)
  }

  /** wl_egl_window_set_rotation, and whether it calls the resize callback. */
  function SetRotation(w: Window, r: Rotation): (Window, bool) {
    if w.rotation == r || r.InvalidRotation? then (w, false)
    else
      var turned := w.(rotation := r);
      if Sideways(r) == Sideways(w.rotation) || w.rotation.InvalidRotation? then (turned, false)
      else if w.callbacks then (turned.(width := w.height, height := w.width), true)
      else (turned, false)
  }

  datatype Request = ResizeTo(width: int, height: int, dx: int, dy: int) | RotateTo(rotation: Rotation)

  function Serve(w: Window, q: Request): Window {
    match q
    case ResizeTo(width, height, dx, dy) => Resize(w, width, height, dx, dy).0
    case RotateTo(r) => SetRotation(w, r).0
  }

  function ServeAll(w: Window, qs: seq<Request>): Window {
    if qs == [] then w else Serve(ServeAll(w, qs[..|qs| - 1]), qs[|qs| - 1])
  }

  /** The last size asked for, or `size` when none was. */
  function LastSize(size: (int, int), qs: seq<Request>): (int, int) {
    if qs == [] then size
    else match qs[|qs| - 1]
      case ResizeTo(width, height, _, _) => (width, height)
      case RotateTo(_) => LastSize(size, qs[..|qs| - 1])
  }

  /** With the callbacks installed, the window's size in its own frame stays the last
      size requested, whatever rotations happen in between. */
  lemma {:induction false} SizeSurvivesRotation(w: Window, qs: seq<Request>)
    requires w.callbacks && !w.rotation.InvalidRotation?
    ensures LogicalSize(ServeAll(w, qs)) == LastSize(LogicalSize(w), qs)
    ensures ServeAll(w, qs).callbacks && !ServeAll(w, qs).rotation.InvalidRotation?
  {
    if qs != [] {
      SizeSurvivesRotation(w, qs[..|qs| - 1]);
    }
  }

  /** The last offsets asked for. */
  function LastOffsets(offsets: (int, int), qs: seq<Request>): (int, int) {
    if qs == [] then offsets
    else match qs[|qs| - 1]
      case ResizeTo(_, _, dx, dy) => (dx, dy)
      case RotateTo(_) => LastOffsets(offsets, qs[..|qs| - 1])
  }

  /** The last valid rotation asked for. */
  function LastRotation(rotation: Rotation, qs: seq<Request>): Rotation {
    if qs == [] then rotation
    else match qs[|qs| - 1]
      case RotateTo(r) => if r.InvalidRotation? then LastRotation(rotation, qs[..|qs| - 1]) else r
      case ResizeTo(_, _, _, _) => LastRotation(rotation, qs[..|qs| - 1])
  }

  /** The window's offsets and rotation are the last ones requested, even by a resize to the
      same size; requests leave the attached size and the callbacks alone. */
  lemma {:induction false} OffsetsAndRotationAreLast(w: Window, qs: seq<Request>)
    ensures var w' := ServeAll(w, qs);
      && (w'.dx, w'.dy) == LastOffsets((w.dx, w.dy), qs) && w'.rotation == LastRotation(w.rotation, qs)
      && w'.attachedWidth == w.attachedWidth && w'.attachedHeight == w.attachedHeight && w'.callbacks == w.callbacks
  {
    if qs != [] {
      OffsetsAndRotationAreLast(w, qs[..|qs| - 1]);
    }
  }

  /** One rotation keeps the size exactly when it is no quarter turn, or the callbacks
      are there, or the window is square. */
  lemma RotationKeepsSizeIff(w: Window, r: Rotation)
    requires !w.rotation.InvalidRotation? && !r.InvalidRotation?
    ensures LogicalSize(SetRotation(w, r).0) == LogicalSize(w) <==>
            Sideways(r) == Sideways(w.rotation) || w.callbacks || w.width == w.height
  {
  }

  /** wl_egl_window_create resizes a window whose memory is not initialised yet and sets
      the rotation afterwards; `garbage` is what the memory held. */
  function Create(garbage: Window, width: int, height: int): Window {
    var resized := Resize(garbage.(callbacks := false), width, height, 0, 0).0;
    resized.(attachedWidth := 0, attachedHeight := 0, rotation := Rotation0)
  }

  /** So the new window has the requested size exactly when the stale rotation was not
      sideways, or the request is square. */
  lemma CreateHasSizeIff(garbage: Window, width: int, height: int)
    ensures LogicalSize(Create(garbage, width, height)) == (width, height) <==>
            !Sideways(garbage.rotation) || width == height
  {
  }

  class EglWindow {
    var width: int
    var height: int
    var dx: int
    var dy: int
    var attachedWidth: int
    var attachedHeight: int
    var rotation: Rotation
    var callbacks: bool

    function State(): Window
      reads this
    {
      Window(width, height, dx, dy, attachedWidth, attachedHeight, rotation, callbacks)
    }

    /** `notified` is whether the resize callback is called, with the new fields in place. */
    method ResizeWindow(width: int, height: int, dx: int, dy: int) returns (notified: bool)
      modifies this
      ensures (State(), notified) == Resize(old(State()), width, height, dx, dy)
    {
      this.dx := dx;
      this.dy := dy;
      var prevWidth, prevHeight := this.width, this.height;
      match rotation {
        case Rotation90 | Rotation270 => prevWidth, prevHeight := this.height, this.width;
        case _ =>
      }
      if prevWidth == width && prevHeight == height {
        return false;
      }
      match rotation {
        case Rotation90 | Rotation270 => this.width, this.height := height, width;
        case _ => this.width, this.height := width, height;
      }
      return callbacks;
    }

    method SetWindowRotation(r: Rotation) returns (notified: bool)
      modifies this
      ensures (State(), notified) == SetRotation(old(State()), r)
    {
      if rotation == r {
        return false;
      }
      var resize := false;
      match r {
        case Rotation0 | Rotation180 => resize := rotation == Rotation90 || rotation == Rotation270;
        case Rotation90 | Rotation270 => resize := rotation == Rotation0 || rotation == Rotation180;
        case InvalidRotation(_) => return false;
      }
      rotation := r;
      if resize && callbacks {
        var temp := width;
        width := height;
        height := temp;
        return true;
      }
      return false;
    }
  }
}
