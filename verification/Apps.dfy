/** Apps as rows of the database, and what the boot check and a promotion of another domain do to a row. */
module Apps {
  import opened Common

  type Id = string
  type ContainerId = string

  datatype Status = Building | Starting | Running | Failed | Stopped | Removing

  /** What the error column holds, as far as the code looks: nothing, the marker a promotion leaves, a report of a
      corrupt build cache, or anything else. */
  datatype Note = NoNote | PromotionMarker | CacheCorrupt | Other

  /** `created` is when the row was inserted, to the second; `hasRepo`, `hasManifest` and `hasImage` say whether the
      checkout directory, the stored manifest and the tagged image exist. */
  datatype Row = Row(
    status: Status, note: Note, container: Option<ContainerId>, created: int,
    hasRepo: bool, hasManifest: bool, hasImage: bool)

  /** A container keeps the domain it was launched with. */
  datatype Container = Container(alive: bool, domain: string)

  predicate Alive(containers: map<ContainerId, Container>, row: Row) {
    row.container.Some? && row.container.value in containers && containers[row.container.value].alive
  }

  predicate Active(row: Row) { row.status.Running? || row.status.Starting? || row.status.Building? }

  predicate Promoted(row: Row) { row.status.Starting? && row.note.PromotionMarker? }

  predicate NeedsBuild(row: Row) { row.status.Building? || !row.hasImage }

  predicate Recoverable(row: Row) { row.hasRepo || (row.hasManifest && !NeedsBuild(row)) }

  // ---------------------------------------------------------------- one row of the boot check

  datatype Verdict = Owned | Up | Lost | Queued(build: bool)

  /** What the check makes of an active row, in the order of its tests; `start` is when this process started. */
  function Check(row: Row, alive: bool, start: int): Verdict {
    if !Promoted(row) && row.status.Starting? && row.created >= start then Owned
    else if alive && !row.status.Starting? then Up
    else if !Recoverable(row) then Lost
    else if row.container == None && !Promoted(row) && row.created >= start then Owned
    else Queued(NeedsBuild(row))
  }

  function Checked(row: Row, alive: bool, start: int): Row {
    if !Active(row) then row else
      match Check(row, alive, start)
      case Owned => if row.status.Starting? then row else row.(status := Starting)
      case Up => row.(status := Running)
      case Lost => row.(status := Failed, note := Other)
      case Queued(_) => row.(status := Starting)
  }

  predicate Corrupted(row: Row) { row.status.Failed? && row.note.CacheCorrupt? && row.hasRepo }

  function Uncorrupted(row: Row): Row { if Corrupted(row) then row.(status := Starting, note := NoNote) else row }

  /** Both passes. */
  function Booted(row: Row, alive: bool, start: int): Row { Uncorrupted(Checked(row, alive, start)) }

  /** What the two passes queue, if anything. */
  function Recovery(row: Row, alive: bool, start: int): Option<bool> {
    if Active(row) then
      match Check(row, alive, start)
      case Queued(build) => Some(build)
      case _ => None
    else if Corrupted(row) then Some(true)
    else None
  }

  // ---------------------------------------------------------------- marking and promoting

  function MarkedStarting(row: Row): Row {
    row.(status := Starting, note := if row.note.PromotionMarker? then row.note else NoNote)
  }

  predicate BusyForPromotion(row: Row) { row.status.Building? || row.status.Starting? || row.status.Removing? }

  /** Every app that is up, or may be, is handed to the recovery of the next boot. */
  function HandedOver(row: Row): Row {
    if row.status.Running? || (row.status.Failed? && row.container.Some?)
    then row.(status := Starting, note := PromotionMarker)
    else row
  }
}
