/**
 * The part of the Win32 API the manager calls, as an oracle: each call is a
 * field of `Host` that gives its answer or its failure. One `Host` value
 * stands for the desktop while one action is processed.
 */
module WindowsApi {
  import opened Wrappers
  import opened Protocol

  datatype Point = Point(x: I32, y: I32)

  datatype Rect = Rect(left: I32, top: I32, right: I32, bottom: I32)

  /** One `SetWindowPos` request: move `hwnd` so that its top-left corner is at (x, y). */
  datatype Move = Move(hwnd: Hwnd, x: int, y: int)

  datatype Host = Host(
    cursorPos: Option<Point>,          // GetCursorPos; None when it fails
    windowFromPoint: Point -> Hwnd,    // WindowFromPoint
    rootAncestor: Hwnd -> Hwnd,        // GetAncestor(_, GA_ROOT)
    windowRect: Hwnd -> Option<Rect>,  // GetWindowRect; None when it fails
    setWindowPos: Move -> bool)        // SetWindowPos; false when it fails
}
