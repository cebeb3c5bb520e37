/**
 * The messages exchanged with the window manager: the actions it receives
 * and the replies it publishes (the `Action` and `Reply` enums of src/protocol.rs).
 */
module Protocol {

  /** A signed 32-bit integer, the type of every coordinate in the protocol. */
  type I32 = x: int | -0x8000_0000 <= x < 0x8000_0000

  /** A window handle, compared by its numeric value. */
  type Hwnd = int

  /** The offset carried by an `update` action. */
  datatype UpdatePayload = UpdatePayload(x: I32, y: I32)

  /** What a client asks the manager to do. */
  datatype Action =
    | Start
    | Stop
    | Capture                 // manage the top-level window under the cursor
    | Add(hwnd: Hwnd)
    | Remove(hwnd: Hwnd)
    | RemoveAll
    | Update(offset: UpdatePayload)
    | Refresh                 // ask for the whole state

  /** What the manager publishes to every observer. */
  datatype Reply =
    | Started
    | Stopped
    | CurrentManagedHwnds(hwnds: seq<Hwnd>)
    | Refresh(started: bool, hwnds: seq<Hwnd>)
}
