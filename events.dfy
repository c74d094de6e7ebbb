/**
 * Change events the controller emits. An event names exactly one stick or
 * exactly one button and carries the state that entity had when the change
 * was observed.
 */
module Events {

  datatype Event =
    | StickEv(name: string, x: real, y: real)
    | ButtonEv(name: string, state: int)
}
