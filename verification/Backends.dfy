/** The part of the configuration that routing and health checking read. */
module Backends {

  datatype Backend = Backend(name: string, model: string, priority: int, expectedDown: bool)

  function Names(cfg: seq<Backend>): set<string> {
    set i | 0 <= i < |cfg| :: cfg[i].name
  }
}
