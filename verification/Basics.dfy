/** What several parts of the model share. */
module Basics {

  datatype Option<T> = None | Some(value: T)

  datatype Result<T> = Ok(value: T) | Err(fault: Fault)

  /** The exceptions the program throws; Fatal stands for a failed check that ends the process. */
  datatype Fault = OutOfRange | Domain | Invalid | Fatal

  const TWO31: int := 0x8000_0000
  const TWO32: int := 0x1_0000_0000
  const TWO33: int := 0x2_0000_0000
  const TWO63: int := 0x8000_0000_0000_0000
  const TWO64: int := 0x1_0000_0000_0000_0000

  ghost predicate NoDup<T>(s: seq<T>) {
    forall i, j :: 0 <= i < j < |s| ==> s[i] != s[j]
  }

  /** What comes behind s[i], if `end` comes behind the whole sequence. */
  function Follower<T>(s: seq<T>, i: nat, end: T): T {
    if i + 1 < |s| then s[i + 1] else end
  }
}
