/**
 What a step that touches the disk can meet.  Administrator operations are run against an arbitrary list of fates,
 so a property of every list holds at every prefix of the steps, however they fail.
 */
module Faults {

  /** `RaiseAfter` is an error reported once the effect is on disk, such as a failed directory sync after a rename. */
  datatype Fate = Fine | RaiseBefore | RaiseAfter | Die

  /** How a step or an operation ends: normally, with an exception, or with the process gone. */
  datatype Ending = Ok | Raised | Dead

  /** What is seen of a command afterwards: how it ended, and whether a journal is pending. */
  datatype Report = Report(end: Ending, pending: bool)

  /** The coming fates; once the list is used up every step is fine. */
  class Weather {
    var fates: seq<Fate>

    constructor (fates: seq<Fate>)
      ensures this.fates == fates
    {
      this.fates := fates;
    }

    ghost predicate Calm()
      reads this
    {
      forall i | 0 <= i < |fates| :: fates[i].Fine?
    }

    method Meet() returns (f: Fate)
      modifies this
      ensures f == if |old(fates)| == 0 then Fine else old(fates)[0]
      ensures fates == if |old(fates)| == 0 then [] else old(fates)[1..]
      ensures old(Calm()) ==> Calm() && f.Fine?
    {
      if |fates| == 0 {
        return Fine;
      }
      f := fates[0];
      fates := fates[1..];
    }
  }
}
