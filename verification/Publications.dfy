/** The steps of a publication that are committed one by one. */
module Publications {

  /** How far a publication got: PRIME moves after its world is recorded and the old PRIME archived. */
  datatype Progress = Unpublished | WorldRecorded | OldArchived | PrimeMoved

  /** Its world recorded, the old PRIME archived if there is one, PRIME moved, and the active world named. */
  function PublicationSteps(archives: bool): nat { if archives then 4 else 3 }

  /** How far it is when so many of them went through. */
  function After(steps: int, archives: bool): Progress {
    if steps <= 0 then Unpublished
    else if steps == 1 then WorldRecorded
    else if steps == 2 && archives then OldArchived
    else PrimeMoved
  }
}
