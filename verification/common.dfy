/** Values shared by the harvester and the downstream snapshot scripts. */
module Common {

  /** A JavaScript value that may be `null` or `undefined`. */
  datatype Option<+T> = None | Some(value: T) {
    function GetOr(default: T): T {
      match this
      case Some(v) => v
      case None => default
    }
  }

  /** The outcome of a command-line script: its output, or the usage error it exits with. */
  datatype Result<+T> = Ok(value: T) | UsageError(message: string)

  /** One tournament record as the upstream returns it (`id`, `name`, `nameShortened`). */
  datatype Tournament = Tournament(id: string, name: string, nameShortened: Option<string>)

  /** The snapshot document written by the harvester: `exportedAt`, `count` and `items`. */
  datatype Snapshot = Snapshot(exportedAt: string, count: nat, items: seq<Tournament>)

  /** JavaScript truthiness of a string value: present and non-empty. */
  predicate Truthy(v: Option<string>) { v.Some? && v.value != "" }

  function Min(a: nat, b: nat): nat { if a <= b then a else b }
}
